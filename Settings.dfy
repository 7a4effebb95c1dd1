/**
 * The current generation's configuration: thirteen properties with their
 * defaults, a setter per property that checks the value's type and range and
 * throws otherwise, load(), which runs the setters in a fixed order over a
 * parsed JSON object, and write(), which hands the properties object to
 * JSON.stringify.
 */
module Settings {
  import opened JsCore

  datatype Field =
    | Token | ReplyRate | ReplyNick | ReplyMagic | Speaking | Learning | PingUsers
    | AutoSavePeriod | MagicWords | BlacklistedWords | Admins | IgnoredUsers | UsernameAliases

  /**
   * A properties object, and equally a parsed configuration file as far as
   * load() reads it: the value under each property's key (Key). A key that
   * is absent reads as undefined.
   */
  type Properties = map<Field, JsValue>

  function Lookup(p: Properties, f: Field): JsValue
  {
    if f in p then p[f] else JsUndefined
  }

  /** The order in which load() calls the setters. */
  const LoadOrder: seq<Field> :=
    [Token, ReplyRate, ReplyNick, ReplyMagic, Speaking, Learning, PingUsers,
     AutoSavePeriod, MagicWords, BlacklistedWords, Admins, IgnoredUsers, UsernameAliases]

  lemma AllFieldsLoaded(g: Field)
    ensures g in LoadOrder
  {
  }

  /** The property's key in the configuration file. */
  function Key(f: Field): string
  {
    match f
    case Token => "token"
    case ReplyRate => "replyRate"
    case ReplyNick => "replyNick"
    case ReplyMagic => "replyMagic"
    case Speaking => "speaking"
    case Learning => "learning"
    case PingUsers => "pingUsers"
    case AutoSavePeriod => "autoSavePeriod"
    case MagicWords => "magicWords"
    case BlacklistedWords => "blacklistedWords"
    case Admins => "admins"
    case IgnoredUsers => "ignoredUsers"
    case UsernameAliases => "usernameAliases"
  }

  function StringArray(xs: seq<string>): (v: JsValue)
    ensures v.JsArray? && |v.items| == |xs|
    ensures forall i :: 0 <= i < |xs| ==> v.items[i] == JsString(xs[i])
  {
    JsArray(seq(|xs|, i requires 0 <= i < |xs| => JsString(xs[i])))
  }

  /** The default the constructor installs for each property. */
  function DefaultValue(f: Field): JsValue
  {
    match f
    case Token => JsString("")
    case ReplyRate => JsNumber(100)
    case ReplyNick => JsNumber(100)
    case ReplyMagic => JsNumber(100)
    case Speaking => JsBool(true)
    case Learning => JsBool(true)
    case PingUsers => JsBool(false)
    case AutoSavePeriod => JsNumber(200)
    case MagicWords => StringArray(["magic", "words"])
    case BlacklistedWords => StringArray(["dinosaurs"])
    case Admins => StringArray(["316431277668433920"])
    case IgnoredUsers => JsArray([])
    case UsernameAliases => StringArray(["asriel"])
  }

  /** The properties object the constructor installs: every property at its default. */
  function Defaults(): Properties
  {
    map f: Field | f in LoadOrder :: DefaultValue(f)
  }

  /** Every element is a string. */
  predicate AllStrings(items: seq<JsValue>)
  {
    forall i :: 0 <= i < |items| ==> items[i].JsString?
  }

  function Strings(items: seq<JsValue>): (xs: seq<string>)
    requires AllStrings(items)
    ensures |xs| == |items| && forall i :: 0 <= i < |items| ==> items[i] == JsString(xs[i])
  {
    seq(|items|, i requires 0 <= i < |items| => items[i].s)
  }

  /** The strings of an array of strings, put back into an array, are that array. */
  lemma StringsArray(items: seq<JsValue>)
    requires AllStrings(items)
    ensures StringArray(Strings(items)) == JsArray(items)
  {
    assert StringArray(Strings(items)).items == items;
  }

  /** `m.map(str => str.toLowerCase())` over an array of strings. */
  function LowerAll(xs: seq<string>): (r: seq<string>)
    ensures |r| == |xs| && forall i :: 0 <= i < |xs| ==> r[i] == Lower(xs[i])
  {
    seq(|xs|, i requires 0 <= i < |xs| => Lower(xs[i]))
  }

  /** The setters whose arrays are mapped through toLowerCase. */
  predicate Lowered(f: Field)
  {
    f == MagicWords || f == BlacklistedWords || f == UsernameAliases
  }

  /** The values the setter for f takes without throwing. */
  predicate Accepts(f: Field, v: JsValue)
  {
    match f
    case Token => v.JsString?
    case ReplyRate => v.JsNumber? && 0 <= v.n <= 100
    case ReplyNick => v.JsNumber? && 0 <= v.n <= 100
    case ReplyMagic => v.JsNumber? && 0 <= v.n <= 100
    case AutoSavePeriod => v.JsNumber? && v.n >= 0
    case Speaking => v.JsBool?
    case Learning => v.JsBool?
    case PingUsers => v.JsBool?
    case MagicWords => v.JsArray? && AllStrings(v.items)
    case BlacklistedWords => v.JsArray? && AllStrings(v.items)
    case UsernameAliases => v.JsArray? && AllStrings(v.items)
    case Admins => v.JsArray?
    case IgnoredUsers => v.JsArray?
  }

  /** What the setter stores for a value it takes. */
  function Stored(f: Field, v: JsValue): JsValue
    requires Accepts(f, v)
  {
    if Lowered(f) then StringArray(LowerAll(Strings(v.items))) else v
  }

  /** Why a setter throws. */
  datatype ConfigError =
    | WrongType(f: Field)     // not a string, a Number, a boolean or an array
    | OutOfRange(f: Field)    // a rate outside [0, 100] or a negative period
    | NoLowerCase             // toLowerCase on an array element that is not a string

  /** The text of the exception. */
  function ErrorText(e: ConfigError): string
  {
    match e
    case WrongType(Token) => "'token' must be a string"
    case WrongType(AutoSavePeriod) => "'autoSavePeriod must be a Number"
    case WrongType(f) =>
      if f == ReplyRate || f == ReplyNick || f == ReplyMagic then "'" + Key(f) + "' must be a Number"
      else if f == Speaking || f == Learning || f == PingUsers then "'" + Key(f) + "' must be either 'true' or 'false'"
      else "'" + Key(f) + "' must be an array"
    case OutOfRange(AutoSavePeriod) => "'autoSavePeriod' cannot be a negative number"
    case OutOfRange(f) => "'" + Key(f) + "' must be in between 0 and 100"
    case NoLowerCase => "TypeError: str.toLowerCase is not a function"
  }

  /** The error a setter throws for a value it does not take: a wrong type is reported before a range. */
  function Refusal(f: Field, v: JsValue): ConfigError
  {
    match f
    case ReplyRate => if v.JsNumber? then OutOfRange(f) else WrongType(f)
    case ReplyNick => if v.JsNumber? then OutOfRange(f) else WrongType(f)
    case ReplyMagic => if v.JsNumber? then OutOfRange(f) else WrongType(f)
    case AutoSavePeriod => if v.JsNumber? then OutOfRange(f) else WrongType(f)
    case MagicWords => if v.JsArray? then NoLowerCase else WrongType(f)
    case BlacklistedWords => if v.JsArray? then NoLowerCase else WrongType(f)
    case UsernameAliases => if v.JsArray? then NoLowerCase else WrongType(f)
    case _ => WrongType(f)
  }

  /**
   * One setter: the new properties and the error it throws, if any. A
   * refused value changes nothing; an accepted one replaces its own property
   * and no other.
   */
  function Setter(p: Properties, f: Field, v: JsValue): (r: (Properties, Option<ConfigError>))
    ensures r.1.None? <==> Accepts(f, v)
    ensures r.1.Some? ==> r.0 == p && r.1.value == Refusal(f, v)
    ensures r.1.None? ==> Lookup(r.0, f) == Stored(f, v)
    ensures forall g :: g != f ==> Lookup(r.0, g) == Lookup(p, g)
    ensures r.0.Keys == p.Keys || r.0.Keys == p.Keys + {f}
  {
    if !Accepts(f, v) then (p, Some(Refusal(f, v))) else (p[f := Stored(f, v)], None)
  }

  /** The setters for fs run in order over data, stopping at the first throw. */
  function LoadFields(p: Properties, data: Properties, fs: seq<Field>): (Properties, Option<ConfigError>)
    decreases fs
  {
    if fs == [] then (p, None)
    else
      var (q, err) := Setter(p, fs[0], Lookup(data, fs[0]));
      if err.Some? then (q, err) else LoadFields(q, data, fs[1..])
  }

  /** The position of the first setter in fs that refuses its value in data, or |fs|. */
  function FirstRefused(data: Properties, fs: seq<Field>): (k: nat)
    ensures k <= |fs|
    ensures forall i :: 0 <= i < k ==> Accepts(fs[i], Lookup(data, fs[i]))
    ensures k < |fs| ==> !Accepts(fs[k], Lookup(data, fs[k]))
    decreases fs
  {
    if fs == [] then 0
    else if !Accepts(fs[0], Lookup(data, fs[0])) then 0
    else 1 + FirstRefused(data, fs[1..])
  }

  /** load() throws exactly when some setter refuses its value, with that setter's message. */
  lemma {:induction false} LoadFieldsError(p: Properties, data: Properties, fs: seq<Field>)
    ensures var k := FirstRefused(data, fs);
      var err := LoadFields(p, data, fs).1;
      (err.None? <==> k == |fs|) &&
      (err.Some? ==> err.value == Refusal(fs[k], Lookup(data, fs[k])))
    decreases fs
  {
    if fs != [] && Accepts(fs[0], Lookup(data, fs[0])) {
      LoadFieldsError(Setter(p, fs[0], Lookup(data, fs[0])).0, data, fs[1..]);
    }
  }

  /**
   * load() is not atomic: when the setter at position k = FirstRefused
   * throws, the properties handled before it already hold the file's values
   * and the rest keep the old ones.
   */
  lemma {:induction false} LoadFieldsValue(p: Properties, data: Properties, fs: seq<Field>, g: Field)
    ensures var k := FirstRefused(data, fs);
      Lookup(LoadFields(p, data, fs).0, g) ==
        if g in fs[..k] then Stored(g, Lookup(data, g)) else Lookup(p, g)
    decreases fs
  {
    if fs == [] {
    } else if Accepts(fs[0], Lookup(data, fs[0])) {
      var q := Setter(p, fs[0], Lookup(data, fs[0])).0;
      assert LoadFields(p, data, fs) == LoadFields(q, data, fs[1..]);
      var k := FirstRefused(data, fs);
      assert k == 1 + FirstRefused(data, fs[1..]);
      LoadFieldsValue(q, data, fs[1..], g);
      InPrefixCons(fs, k, g);
      assert Lookup(q, g) == if g == fs[0] then Stored(g, Lookup(data, g)) else Lookup(p, g);
    } else {
      assert FirstRefused(data, fs) == 0 && fs[..0] == [];
      assert LoadFields(p, data, fs).0 == p;
    }
  }

  lemma InPrefixCons<T>(xs: seq<T>, k: nat, x: T)
    requires 1 <= k <= |xs|
    ensures x in xs[..k] <==> x == xs[0] || x in xs[1..][..k - 1]
  {
    assert xs[..k] == [xs[0]] + xs[1..][..k - 1];
  }

  /** load() adds keys and never removes one. */
  lemma {:induction false} LoadFieldsKeys(p: Properties, data: Properties, fs: seq<Field>)
    ensures p.Keys <= LoadFields(p, data, fs).0.Keys <= p.Keys + (set f | f in fs)
    decreases fs
  {
    if fs != [] && Accepts(fs[0], Lookup(data, fs[0])) {
      LoadFieldsKeys(Setter(p, fs[0], Lookup(data, fs[0])).0, data, fs[1..]);
    }
  }

  /** LoadOrder[k], by position. */
  function FieldAt(k: nat): (f: Field)
    requires k < 13
    ensures f == LoadOrder[k]
  {
    if k == 0 then Token else if k == 1 then ReplyRate else if k == 2 then ReplyNick
    else if k == 3 then ReplyMagic else if k == 4 then Speaking else if k == 5 then Learning
    else if k == 6 then PingUsers else if k == 7 then AutoSavePeriod else if k == 8 then MagicWords
    else if k == 9 then BlacklistedWords else if k == 10 then Admins else if k == 11 then IgnoredUsers
    else UsernameAliases
  }

  /** load() from the setter at position k on. */
  function LoadFrom(p: Properties, data: Properties, k: nat): (Properties, Option<ConfigError>)
    requires k <= 13
    decreases 13 - k
  {
    if k == 13 then (p, None)
    else
      var (q, err) := Setter(p, FieldAt(k), Lookup(data, FieldAt(k)));
      if err.Some? then (q, err) else LoadFrom(q, data, k + 1)
  }

  lemma {:induction false} LoadFromIsLoadFields(p: Properties, data: Properties, k: nat)
    requires k <= 13
    ensures LoadFrom(p, data, k) == LoadFields(p, data, LoadOrder[k..])
    decreases 13 - k
  {
    var fs := LoadOrder[k..];
    if k < 13 {
      var f := FieldAt(k);
      assert fs[0] == f;
      assert fs[1..] == LoadOrder[k + 1..];
      LoadFromIsLoadFields(Setter(p, f, Lookup(data, f)).0, data, k + 1);
    } else {
      assert fs == [];
    }
  }

  predicate LowerCaseStrings(v: JsValue)
  {
    v.JsArray? && forall i :: 0 <= i < |v.items| ==> v.items[i].JsString? && IsLowerCase(v.items[i].s)
  }

  /**
   * What every setter keeps: each property present with a value its setter
   * takes, and the word lists in lower case.
   */
  predicate WellFormed(p: Properties)
  {
    forall f :: f in p && Accepts(f, p[f]) && (Lowered(f) ==> LowerCaseStrings(p[f]))
  }

  lemma StringArrayLowerCase(xs: seq<string>)
    requires forall i :: 0 <= i < |xs| ==> IsLowerCase(xs[i])
    ensures StringArray(xs).JsArray? && AllStrings(StringArray(xs).items)
    ensures LowerCaseStrings(StringArray(xs))
  {
  }

  /** Each default is a value its setter takes, the word lists in lower case. */
  lemma DefaultWellFormed(f: Field)
    ensures Accepts(f, DefaultValue(f)) && (Lowered(f) ==> LowerCaseStrings(DefaultValue(f)))
  {
    match f
    case MagicWords =>
      var ws := ["magic", "words"];
      assert IsLowerCase(ws[0]) && IsLowerCase(ws[1]);
      StringArrayLowerCase(ws);
    case BlacklistedWords =>
      var ws := ["dinosaurs"];
      assert IsLowerCase(ws[0]);
      StringArrayLowerCase(ws);
    case UsernameAliases =>
      var ws := ["asriel"];
      assert IsLowerCase(ws[0]);
      StringArrayLowerCase(ws);
    case _ =>
  }

  lemma DefaultsWellFormed()
    ensures WellFormed(Defaults())
  {
    var d := Defaults();
    forall f ensures f in d && Accepts(f, d[f]) && (Lowered(f) ==> LowerCaseStrings(d[f])) {
      AllFieldsLoaded(f);
      DefaultWellFormed(f);
    }
  }

  /** What a setter stores is well formed. */
  lemma StoredWellFormed(f: Field, v: JsValue)
    requires Accepts(f, v)
    ensures Accepts(f, Stored(f, v)) && (Lowered(f) ==> LowerCaseStrings(Stored(f, v)))
  {
    if Lowered(f) {
      var xs := LowerAll(Strings(v.items));
      forall i | 0 <= i < |xs| ensures IsLowerCase(xs[i]) {
        LowerIsLowerCase(Strings(v.items)[i]);
      }
    }
  }

  /** Every setter keeps the properties well formed. */
  lemma SetterKeepsWellFormed(p: Properties, f: Field, v: JsValue)
    requires WellFormed(p)
    ensures WellFormed(Setter(p, f, v).0)
  {
    if Accepts(f, v) {
      StoredWellFormed(f, v);
    }
  }

  /** load() keeps the properties well formed, whether or not a setter throws. */
  lemma {:induction false} LoadKeepsWellFormed(p: Properties, data: Properties, fs: seq<Field>)
    requires WellFormed(p)
    ensures WellFormed(LoadFields(p, data, fs).0)
    decreases fs
  {
    if fs != [] {
      SetterKeepsWellFormed(p, fs[0], Lookup(data, fs[0]));
      LoadKeepsWellFormed(Setter(p, fs[0], Lookup(data, fs[0])).0, data, fs[1..]);
    }
  }

  /** Each setter takes back, unchanged, what a well-formed record holds. */
  lemma SetterTakesOwnValue(p: Properties, f: Field)
    requires WellFormed(p)
    ensures Accepts(f, p[f]) && Stored(f, p[f]) == p[f]
  {
    if Lowered(f) {
      var v := p[f];
      var xs := LowerAll(Strings(v.items));
      forall i | 0 <= i < |v.items| ensures xs[i] == v.items[i].s {
        LowerOfLowerCase(v.items[i].s);
      }
      assert StringArray(xs).items == v.items;
    }
  }

  lemma {:induction false} FirstRefusedNone(data: Properties, fs: seq<Field>)
    requires forall f :: Accepts(f, Lookup(data, f))
    ensures FirstRefused(data, fs) == |fs|
    decreases fs
  {
    if fs != [] {
      FirstRefusedNone(data, fs[1..]);
    }
  }

  lemma TakeAll<T>(s: seq<T>)
    ensures s[..|s|] == s
  {
  }

  /** Loading a well-formed object through setters that cover every property gives it back. */
  lemma LoadCoveringFields(p: Properties, before: Properties, fs: seq<Field>)
    requires WellFormed(p) && forall f :: f in fs
    ensures LoadFields(before, p, fs) == (p, None)
  {
    forall f ensures Accepts(f, Lookup(p, f)) {
      SetterTakesOwnValue(p, f);
    }
    FirstRefusedNone(p, fs);
    LoadFieldsError(before, p, fs);
    TakeAll(fs);
    var q := LoadFields(before, p, fs).0;
    forall f ensures f in q && q[f] == p[f] {
      LoadFieldsValue(before, p, fs, f);
      SetterTakesOwnValue(p, f);
    }
    assert q.Keys == p.Keys;
    assert q == p;
    assert LoadFields(before, p, fs).1 == None;
  }

  /**
   * write() serialises the properties object itself; loading what it wrote
   * gives back the same properties, whatever was set before.
   */
  lemma WriteLoadRoundTrip(p: Properties, before: Properties)
    requires WellFormed(p)
    ensures LoadFields(before, p, LoadOrder) == (p, None)
  {
    forall f ensures f in LoadOrder {
      AllFieldsLoaded(f);
    }
    LoadCoveringFields(p, before, LoadOrder);
  }

  class Config {
    var properties: Properties

    predicate Valid()
      reads this
    {
      WellFormed(properties)
    }

    constructor ()
      ensures properties == Defaults() && Valid()
    {
      properties := Defaults();
      DefaultsWellFormed();
    }

    /** write(path): the object JSON.stringify receives. */
    method Write() returns (obj: Properties)
      ensures obj == properties
    {
      obj := properties;
    }

    method SetToken(t: JsValue) returns (err: Option<ConfigError>)
      modifies this
      ensures (properties, err) == Setter(old(properties), Token, t)
    {
      if !t.JsString? {
        return Some(WrongType(Token));
      }
      properties := properties[Token := t];
      err := None;
    }

    method SetReplyRate(r: JsValue) returns (err: Option<ConfigError>)
      modifies this
      ensures (properties, err) == Setter(old(properties), ReplyRate, r)
    {
      if !r.JsNumber? {
        return Some(WrongType(ReplyRate));
      }
      if r.n < 0 || r.n > 100 {
        return Some(OutOfRange(ReplyRate));
      }
      properties := properties[ReplyRate := r];
      err := None;
    }

    method SetReplyNick(r: JsValue) returns (err: Option<ConfigError>)
      modifies this
      ensures (properties, err) == Setter(old(properties), ReplyNick, r)
    {
      if !r.JsNumber? {
        return Some(WrongType(ReplyNick));
      }
      if r.n < 0 || r.n > 100 {
        return Some(OutOfRange(ReplyNick));
      }
      properties := properties[ReplyNick := r];
      err := None;
    }

    method SetReplyMagic(r: JsValue) returns (err: Option<ConfigError>)
      modifies this
      ensures (properties, err) == Setter(old(properties), ReplyMagic, r)
    {
      if !r.JsNumber? {
        return Some(WrongType(ReplyMagic));
      }
      if r.n < 0 || r.n > 100 {
        return Some(OutOfRange(ReplyMagic));
      }
      properties := properties[ReplyMagic := r];
      err := None;
    }

    method SetSpeaking(s: JsValue) returns (err: Option<ConfigError>)
      modifies this
      ensures (properties, err) == Setter(old(properties), Speaking, s)
    {
      if !s.JsBool? {
        return Some(WrongType(Speaking));
      }
      properties := properties[Speaking := s];
      err := None;
    }

    method SetLearning(l: JsValue) returns (err: Option<ConfigError>)
      modifies this
      ensures (properties, err) == Setter(old(properties), Learning, l)
    {
      if !l.JsBool? {
        return Some(WrongType(Learning));
      }
      properties := properties[Learning := l];
      err := None;
    }

    method SetPingUsers(p: JsValue) returns (err: Option<ConfigError>)
      modifies this
      ensures (properties, err) == Setter(old(properties), PingUsers, p)
    {
      if !p.JsBool? {
        return Some(WrongType(PingUsers));
      }
      properties := properties[PingUsers := p];
      err := None;
    }

    method SetAutoSavePeriod(a: JsValue) returns (err: Option<ConfigError>)
      modifies this
      ensures (properties, err) == Setter(old(properties), AutoSavePeriod, a)
    {
      if !a.JsNumber? {
        return Some(WrongType(AutoSavePeriod));
      }
      if a.n < 0 {
        return Some(OutOfRange(AutoSavePeriod));
      }
      properties := properties[AutoSavePeriod := a];
      err := None;
    }

    /** `m.map(str => str.toLowerCase())`, throwing at the first element that is not a string. */
    static method LowerEach(items: seq<JsValue>) returns (r: Option<JsValue>)
      ensures r.Some? <==> AllStrings(items)
      ensures r.Some? ==> r.value == StringArray(LowerAll(Strings(items)))
    {
      var out: seq<JsValue> := [];
      var i := 0;
      while i < |items|
        invariant 0 <= i <= |items|
        invariant AllStrings(items[..i])
        invariant |out| == i && forall k :: 0 <= k < i ==> out[k] == JsString(Lower(items[k].s))
      {
        if !items[i].JsString? {
          assert !AllStrings(items);
          return None;
        }
        out := out + [JsString(Lower(items[i].s))];
        i := i + 1;
      }
      assert items[..i] == items;
      r := Some(JsArray(out));
    }

    method SetMagicWords(m: JsValue) returns (err: Option<ConfigError>)
      modifies this
      ensures (properties, err) == Setter(old(properties), MagicWords, m)
    {
      if !m.JsArray? {
        return Some(WrongType(MagicWords));
      }
      var lowered := LowerEach(m.items);
      if lowered.None? {
        return Some(NoLowerCase);
      }
      properties := properties[MagicWords := lowered.value];
      err := None;
    }

    method SetBlacklistedWords(b: JsValue) returns (err: Option<ConfigError>)
      modifies this
      ensures (properties, err) == Setter(old(properties), BlacklistedWords, b)
    {
      if !b.JsArray? {
        return Some(WrongType(BlacklistedWords));
      }
      var lowered := LowerEach(b.items);
      if lowered.None? {
        return Some(NoLowerCase);
      }
      properties := properties[BlacklistedWords := lowered.value];
      err := None;
    }

    method SetAdmins(a: JsValue) returns (err: Option<ConfigError>)
      modifies this
      ensures (properties, err) == Setter(old(properties), Admins, a)
    {
      if !a.JsArray? {
        return Some(WrongType(Admins));
      }
      properties := properties[Admins := a];
      err := None;
    }

    method SetIgnoredUsers(ig: JsValue) returns (err: Option<ConfigError>)
      modifies this
      ensures (properties, err) == Setter(old(properties), IgnoredUsers, ig)
    {
      if !ig.JsArray? {
        return Some(WrongType(IgnoredUsers));
      }
      properties := properties[IgnoredUsers := ig];
      err := None;
    }

    method SetUsernameAliases(ua: JsValue) returns (err: Option<ConfigError>)
      modifies this
      ensures (properties, err) == Setter(old(properties), UsernameAliases, ua)
    {
      if !ua.JsArray? {
        return Some(WrongType(UsernameAliases));
      }
      var lowered := LowerEach(ua.items);
      if lowered.None? {
        return Some(NoLowerCase);
      }
      properties := properties[UsernameAliases := lowered.value];
      err := None;
    }

    /** load(path) over the parsed file: the thirteen setters in order, up to the first throw. */
    method Load(data: Properties) returns (err: Option<ConfigError>)
      modifies this
      ensures (properties, err) == LoadFields(old(properties), data, LoadOrder)
    {
      LoadFromIsLoadFields(properties, data, 0);
      assert LoadOrder[0..] == LoadOrder;
      ghost var goal := LoadFrom(properties, data, 0);
      err := SetToken(Lookup(data, Token));
      if err.Some? { return; }
      assert goal == LoadFrom(properties, data, 1);
      err := SetReplyRate(Lookup(data, ReplyRate));
      if err.Some? { return; }
      assert goal == LoadFrom(properties, data, 2);
      err := SetReplyNick(Lookup(data, ReplyNick));
      if err.Some? { return; }
      assert goal == LoadFrom(properties, data, 3);
      err := SetReplyMagic(Lookup(data, ReplyMagic));
      if err.Some? { return; }
      assert goal == LoadFrom(properties, data, 4);
      err := SetSpeaking(Lookup(data, Speaking));
      if err.Some? { return; }
      assert goal == LoadFrom(properties, data, 5);
      err := SetLearning(Lookup(data, Learning));
      if err.Some? { return; }
      assert goal == LoadFrom(properties, data, 6);
      err := SetPingUsers(Lookup(data, PingUsers));
      if err.Some? { return; }
      assert goal == LoadFrom(properties, data, 7);
      err := SetAutoSavePeriod(Lookup(data, AutoSavePeriod));
      if err.Some? { return; }
      assert goal == LoadFrom(properties, data, 8);
      err := SetMagicWords(Lookup(data, MagicWords));
      if err.Some? { return; }
      assert goal == LoadFrom(properties, data, 9);
      err := SetBlacklistedWords(Lookup(data, BlacklistedWords));
      if err.Some? { return; }
      assert goal == LoadFrom(properties, data, 10);
      err := SetAdmins(Lookup(data, Admins));
      if err.Some? { return; }
      assert goal == LoadFrom(properties, data, 11);
      err := SetIgnoredUsers(Lookup(data, IgnoredUsers));
      if err.Some? { return; }
      assert goal == LoadFrom(properties, data, 12);
      err := SetUsernameAliases(Lookup(data, UsernameAliases));
    }

    /** The getters: the scalar properties, and copies of the arrays (values here, so never aliased). */
    function GetToken(): (r: string) reads this requires Valid() ensures JsString(r) == properties[Token] { properties[Token].s }
    function GetReplyRate(): (r: int) reads this requires Valid() ensures 0 <= r <= 100 { properties[ReplyRate].n }
    function GetReplyNick(): (r: int) reads this requires Valid() ensures 0 <= r <= 100 { properties[ReplyNick].n }
    function GetReplyMagic(): (r: int) reads this requires Valid() ensures 0 <= r <= 100 { properties[ReplyMagic].n }
    function GetSpeaking(): (r: bool) reads this requires Valid() ensures JsBool(r) == properties[Speaking] { properties[Speaking].b }
    function GetLearning(): (r: bool) reads this requires Valid() ensures JsBool(r) == properties[Learning] { properties[Learning].b }
    function GetPingUsers(): (r: bool) reads this requires Valid() ensures JsBool(r) == properties[PingUsers] { properties[PingUsers].b }
    function GetAutoSavePeriod(): (r: int) reads this requires Valid() ensures r >= 0 { properties[AutoSavePeriod].n }

    /** getMagicWords: the stored list, in lower case. */
    function GetMagicWords(): (r: seq<string>)
      reads this
      requires Valid()
      ensures StringArray(r) == properties[MagicWords]
      ensures forall i :: 0 <= i < |r| ==> IsLowerCase(r[i])
    {
      StringsArray(properties[MagicWords].items);
      Strings(properties[MagicWords].items)
    }

    /** getBlacklistedWords: the stored list, in lower case. */
    function GetBlacklistedWords(): (r: seq<string>)
      reads this
      requires Valid()
      ensures StringArray(r) == properties[BlacklistedWords]
      ensures forall i :: 0 <= i < |r| ==> IsLowerCase(r[i])
    {
      StringsArray(properties[BlacklistedWords].items);
      Strings(properties[BlacklistedWords].items)
    }

    /** getUsernameAliases: the stored list, in lower case. */
    function GetUsernameAliases(): (r: seq<string>)
      reads this
      requires Valid()
      ensures StringArray(r) == properties[UsernameAliases]
      ensures forall i :: 0 <= i < |r| ==> IsLowerCase(r[i])
    {
      StringsArray(properties[UsernameAliases].items);
      Strings(properties[UsernameAliases].items)
    }

    function GetAdmins(): (r: seq<JsValue>) reads this requires Valid() ensures JsArray(r) == properties[Admins]
    {
      properties[Admins].items
    }

    function GetIgnoredUsers(): (r: seq<JsValue>) reads this requires Valid() ensures JsArray(r) == properties[IgnoredUsers]
    {
      properties[IgnoredUsers].items
    }
  }
}
