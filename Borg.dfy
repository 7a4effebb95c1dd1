/**
 * The current generation's bot: which messages it handles and in what order
 * it looks at them, when it decides to reply, how a reply is built from the
 * dictionary, and the administrator commands that change the configuration.
 * The bot reads its configuration through the getters of Config.
 */
module Borg {
  import opened JsCore
  import opened Regex
  import opened Util
  import opened Dict
  import opened Settings

  /**
   * An incoming chat message. `mentionsBot` is message.isMentioned(bot user)
   * and `mentionsMember` is message.isMemberMentioned(bot user).
   */
  datatype Message = Message(
    authorId: string,
    fromSelf: bool,
    content: string,
    mentionsBot: bool,
    mentionsMember: bool)

  /** The Math.random() values a message may consume, in the order the code draws them. */
  datatype Draws = Draws(magic: real, nick: real, rate: real, pick: real, left: real, right: real)

  predicate ValidDraws(d: Draws)
  {
    IsRandom(d.magic) && IsRandom(d.nick) && IsRandom(d.rate) &&
    IsRandom(d.pick) && IsRandom(d.left) && IsRandom(d.right)
  }

  /** The words of a message, as getWillReply and reply compute them. */
  function MessageWords(content: string): seq<string>
  {
    SplitWords(Lower(content))
  }

  predicate StartsWithSemicolon(s: string)
  {
    |s| > 0 && s[0] == ';'
  }

  // ---------------------------------------------------------------------
  // The reply decision
  // ---------------------------------------------------------------------

  predicate HasMagic(words: seq<string>, magic: seq<string>)
  {
    exists i :: 0 <= i < |magic| && magic[i] in words
  }

  /**
   * getWillReply: three independent chances, each with its own draw in
   * [1, 100]: a magic word in the message, a mention of the bot, and the
   * plain reply rate.
   */
  predicate WillReply(p: Properties, m: Message, d: Draws)
    requires WellFormed(p) && ValidDraws(d)
  {
    (HasMagic(MessageWords(m.content), Strings(p[MagicWords].items)) && Percent(d.magic) <= p[ReplyMagic].n) ||
    (m.mentionsMember && Percent(d.nick) <= p[ReplyNick].n) ||
    Percent(d.rate) <= p[ReplyRate].n
  }

  /** With every rate at 0 the bot never replies, since every draw is at least 1. */
  lemma NoReplyAtZeroRates(p: Properties, m: Message, d: Draws)
    requires WellFormed(p) && ValidDraws(d)
    requires p[ReplyMagic].n == 0 && p[ReplyNick].n == 0 && p[ReplyRate].n == 0
    ensures !WillReply(p, m, d)
  {
    assert Percent(d.magic) >= 1 && Percent(d.nick) >= 1 && Percent(d.rate) >= 1;
  }

  /** With the reply rate at 100 the bot always replies, since no draw exceeds 100. */
  lemma ReplyAtFullRate(p: Properties, m: Message, d: Draws)
    requires WellFormed(p) && ValidDraws(d) && p[ReplyRate].n == 100
    ensures WillReply(p, m, d)
  {
    assert Percent(d.rate) <= 100;
  }

  /** Raising any rate never turns a reply into silence. */
  lemma WillReplyMonotone(p: Properties, q: Properties, m: Message, d: Draws)
    requires WellFormed(p) && WellFormed(q) && ValidDraws(d)
    requires p[MagicWords] == q[MagicWords]
    requires p[ReplyMagic].n <= q[ReplyMagic].n && p[ReplyNick].n <= q[ReplyNick].n && p[ReplyRate].n <= q[ReplyRate].n
    ensures WillReply(p, m, d) ==> WillReply(q, m, d)
  {
  }

  // ---------------------------------------------------------------------
  // Administrator commands
  // ---------------------------------------------------------------------

  /** `content.split(' ')`. */
  function Tokens(content: string): (t: seq<string>)
    ensures |t| >= 1 && JoinWith(t, ' ') == content
  {
    SplitJoin(content, ' ');
    Split(content, CharClass({' '}), false)
  }

  /**
   * admin's parsing: nothing with fewer than three tokens; otherwise the
   * command is the third token and the arguments are all tokens after it.
   */
  function ParseAdmin(content: string): (r: Option<(string, seq<string>)>)
    ensures r.None? <==> |Tokens(content)| < 3
    ensures r.Some? ==> Tokens(content)[..2] + [r.value.0] + r.value.1 == Tokens(content)
  {
    var input := Tokens(content);
    if |input| < 3 then None
    else
      assert input == input[..2] + [input[2]] + input[3..];
      Some((input[2], input[3..]))
  }

  const SetUsage := "Usage: set [property] [value]"
  const KnownUsage := "Usage: known [word]"
  const ForgetUsage := "Usage: forget [word]"
  const BooleanExpected := "value must be either true or false"
  const InvalidProperty :=
    "invalid property specified. Valid properties are: replyrate, replynick, replymagic, speaking, learning, autosaveperiod"

  /** The property a setProperty name selects. */
  function NamedField(prop: string): (r: Option<Field>)
    ensures r.Some? ==> Lower(Key(r.value)) == prop
  {
    if prop == "replyrate" then Some(ReplyRate)
    else if prop == "replynick" then Some(ReplyNick)
    else if prop == "replymagic" then Some(ReplyMagic)
    else if prop == "speaking" then Some(Speaking)
    else if prop == "learning" then Some(Learning)
    else if prop == "autosaveperiod" then Some(AutoSavePeriod)
    else None
  }

  /** The guard setProperty puts before setSpeaking and setLearning, as written. */
  predicate BooleanGuardAsWritten(value: string)
  {
    value != "true" || value != "false"
  }

  /** The guard as written throws for every value, "true" included. */
  lemma BooleanGuardAsWrittenThrows(value: string)
    ensures BooleanGuardAsWritten(value)
    ensures BooleanGuardAsWritten("true") && BooleanGuardAsWritten("false")
  {
  }

  /** The guard as intended: it throws for everything but "true" and "false". */
  predicate BooleanGuard(value: string)
  {
    value != "true" && value != "false"
  }

  /** How setProperty turns the command's text into the value for the setter. */
  function PropertyValue(f: Field, value: string): (r: Result<JsValue>)
    ensures (f == Speaking || f == Learning) ==>
      (r.Ok? <==> !BooleanGuard(value)) && (r.Ok? ==> r.value == JsBool(value == "true"))
    ensures (f == ReplyRate || f == ReplyNick || f == ReplyMagic || f == AutoSavePeriod) ==>
      (r.Ok? <==> ParseInt(value).Ok?) && (r.Ok? ==> r.value == JsNumber(ParseInt(value).value))
  {
    if f == Speaking || f == Learning then
      if BooleanGuard(value) then Err(BooleanExpected) else Ok(JsBool(value == "true"))
    else
      match ParseInt(value)
      case Ok(n) => Ok(JsNumber(n))
      case Err(e) => Err(e)
  }

  /**
   * setProperty(prop, value) on the properties p: the new properties and the
   * message it throws. It either throws and changes nothing, or sets the one
   * property the name selects.
   */
  function SetPropertyResult(p: Properties, prop: string, value: string): (r: (Properties, Option<string>))
    ensures r.1.Some? ==> r.0 == p
    ensures NamedField(prop).None? ==> r == (p, Some(InvalidProperty))
    ensures r.1.None? ==> (NamedField(prop).Some? &&
      var f := NamedField(prop).value;
      PropertyValue(f, value).Ok? && Accepts(f, PropertyValue(f, value).value) &&
      Lookup(r.0, f) == PropertyValue(f, value).value &&
      forall g :: g != f ==> Lookup(r.0, g) == Lookup(p, g))
    ensures NamedField(prop).Some? && PropertyValue(NamedField(prop).value, value).Ok? ==>
      (r.1.None? <==> Accepts(NamedField(prop).value, PropertyValue(NamedField(prop).value, value).value))
  {
    match NamedField(prop)
    case None => (p, Some(InvalidProperty))
    case Some(f) => ApplyProperty(p, f, value)
  }

  /** With a property chosen and its value read, setProperty is the setter's outcome. */
  lemma ApplyPropertyOk(p: Properties, f: Field, value: string, v: JsValue, e: Option<ConfigError>)
    requires PropertyValue(f, value) == Ok(v) && e == Setter(p, f, v).1
    ensures ApplyProperty(p, f, value) == (Setter(p, f, v).0, if e.Some? then Some(ErrorText(e.value)) else None)
  {
  }

  /** A value that cannot be read makes setProperty throw and change nothing. */
  lemma ApplyPropertyErr(p: Properties, f: Field, value: string)
    requires PropertyValue(f, value).Err?
    ensures ApplyProperty(p, f, value) == (p, Some(PropertyValue(f, value).error))
  {
  }

  lemma NumberValueErr(f: Field, value: string)
    requires f == ReplyRate || f == ReplyNick || f == ReplyMagic || f == AutoSavePeriod
    requires ParseInt(value).Err?
    ensures PropertyValue(f, value) == Err(ParseInt(value).error)
  {
  }

  /** setProperty once its name has selected the property f. */
  function ApplyProperty(p: Properties, f: Field, value: string): (r: (Properties, Option<string>))
    ensures r.1.Some? ==> r.0 == p
    ensures r.1.None? ==> (PropertyValue(f, value).Ok? && Accepts(f, PropertyValue(f, value).value) &&
      Lookup(r.0, f) == PropertyValue(f, value).value &&
      forall g :: g != f ==> Lookup(r.0, g) == Lookup(p, g))
    ensures PropertyValue(f, value).Ok? ==> (r.1.None? <==> Accepts(f, PropertyValue(f, value).value))
  {
    match PropertyValue(f, value)
    case Err(e) => (p, Some(e))
    case Ok(v) =>
      var (q, e) := Setter(p, f, v);
      (q, if e.Some? then Some(ErrorText(e.value)) else None)
  }

  /** What an administrator command answers. */
  datatype AdminResult =
    | Silent                  // no reply: too few tokens, an unknown command, or a property set
    | Replied(text: string)   // message.reply(text)
    | Crashed(error: string)  // an exception escapes the handler

  const MissingGetAllLinesContaining := "TypeError: this.dictionary.getAllLinesContaining is not a function"
  const MissingForget := "TypeError: this.dictionary.forget is not a function"

  /**
   * admin(message) on the properties p: the new properties and the answer.
   * Only `set` with exactly two arguments can change the configuration;
   * `known` and `forget` call dictionary methods that do not exist.
   */
  function AdminOutcome(p: Properties, content: string): (r: (Properties, AdminResult))
    ensures ParseAdmin(content).None? ==> r == (p, Silent)
    ensures r.0 != p ==>
      (ParseAdmin(content).Some? && ParseAdmin(content).value.0 == "set" && |ParseAdmin(content).value.1| == 2)
    ensures r.1.Crashed? ==>
      (ParseAdmin(content).Some? && ParseAdmin(content).value.0 in {"known", "forget"} && |ParseAdmin(content).value.1| == 1)
    ensures ParseAdmin(content).Some? && ParseAdmin(content).value.0 == "set" ==>
      var args := ParseAdmin(content).value.1;
      if |args| == 2 then
        var sp := SetPropertyResult(p, args[0], args[1]);
        r == (sp.0, if sp.1.Some? then Replied(sp.1.value) else Silent)
      else r == (p, Replied(SetUsage))
    ensures ParseAdmin(content).Some? && ParseAdmin(content).value.0 == "known" ==>
      r == (p, if |ParseAdmin(content).value.1| == 1 then Crashed(MissingGetAllLinesContaining) else Replied(KnownUsage))
    ensures ParseAdmin(content).Some? && ParseAdmin(content).value.0 == "forget" ==>
      r == (p, if |ParseAdmin(content).value.1| == 1 then Crashed(MissingForget) else Replied(ForgetUsage))
    ensures ParseAdmin(content).Some? && ParseAdmin(content).value.0 !in {"set", "known", "forget"} ==> r == (p, Silent)
  {
    match ParseAdmin(content)
    case None => (p, Silent)
    case Some((command, args)) =>
      if command == "set" then
        if |args| != 2 then (p, Replied(SetUsage))
        else
          var (q, err) := SetPropertyResult(p, args[0], args[1]);
          (q, if err.Some? then Replied(err.value) else Silent)
      else if command == "known" then
        (p, if |args| != 1 then Replied(KnownUsage) else Crashed(MissingGetAllLinesContaining))
      else if command == "forget" then
        (p, if |args| != 1 then Replied(ForgetUsage) else Crashed(MissingForget))
      else (p, Silent)
  }

  // ---------------------------------------------------------------------
  // Message gating
  // ---------------------------------------------------------------------

  datatype Route = Drop | ToAdmin | Converse

  /** The order in which onMessage looks at a message. */
  function Gate(p: Properties, m: Message): Route
    requires WellFormed(p)
  {
    if m.fromSelf then Drop
    else if JsString(m.authorId) in p[Admins].items && m.mentionsBot && StartsWithSemicolon(m.content) then ToAdmin
    else if JsString(m.authorId) in p[IgnoredUsers].items then Drop
    else if !p[Speaking].b then Drop
    else Converse
  }

  /** A message that reaches learning and replying is not the bot's own, not from an ignored user, and the bot speaks. */
  lemma ConverseOnlyWhenSpeaking(p: Properties, m: Message)
    requires WellFormed(p) && Gate(p, m) == Converse
    ensures !m.fromSelf && p[Speaking].b && JsString(m.authorId) !in p[IgnoredUsers].items
  {
  }

  /** What onMessage did with a message. */
  datatype Outcome =
    | Dropped
    | Administered(result: AdminResult)
    | Answered(sent: Option<string>)

  const EmptyToken := "Token is empty. I can't connect without a token. Set one in the config file."

  class AsrielBorg {
    const config: Config
    const dictionary: Dictionary

    predicate Valid()
      reads this, config, dictionary
    {
      config.Valid() && dictionary.Valid()
    }

    constructor (config: Config, dictionary: Dictionary)
      ensures this.config == config && this.dictionary == dictionary
    {
      this.config := config;
      this.dictionary := dictionary;
    }

    /**
     * new AsrielBorg(config): a dictionary is created and loaded from the
     * file, then connect() refuses an empty token. Either step may throw.
     */
    static method Create(config: Config, file: ReadResult) returns (bot: AsrielBorg?, err: Option<string>)
      requires config.Valid()
      ensures err.None? <==> bot != null
      ensures bot != null ==> bot.config == config && fresh(bot.dictionary) && bot.Valid()
      ensures bot != null ==> bot.dictionary.lines == (if file.Read? then LoadedLines(file.text) else [])
      ensures bot != null ==> bot.dictionary.words == (if file.Read? then LoadedWords(file.text) else [])
      ensures file.Failed? && file.code != "ENOENT" ==> err == Some(file.code)
      ensures !(file.Failed? && file.code != "ENOENT") ==> (err.Some? <==> config.GetToken() == "")
      ensures err.Some? && config.GetToken() == "" && !(file.Failed? && file.code != "ENOENT") ==> err == Some(EmptyToken)
    {
      var dictionary := new Dictionary();
      err := dictionary.Load(file);
      if err.Some? {
        return null, err;
      }
      if config.GetToken() == "" {
        return null, Some(EmptyToken);
      }
      bot := new AsrielBorg(config, dictionary);
    }

    /** getWillReply(message), with the loop the source uses to look for a magic word. */
    method GetWillReply(m: Message, d: Draws) returns (willReply: bool)
      requires Valid() && ValidDraws(d)
      ensures willReply == WillReply(config.properties, m, d)
    {
      var words := MessageWords(m.content);
      var magic := config.GetMagicWords();
      var hasMagic := false;
      var mi := 0;
      // The source's condition `!hasMagic, mi < length` is a comma expression: only `mi < length` counts.
      while mi < |magic|
        invariant 0 <= mi <= |magic|
        invariant hasMagic <==> exists i :: 0 <= i < mi && magic[i] in words
      {
        if magic[mi] in words {
          hasMagic := true;
        }
        mi := mi + 1;
      }
      if hasMagic {
        var random := Percent(d.magic);
        if random <= config.GetReplyMagic() {
          return true;
        }
      }
      if m.mentionsMember {
        var random := Percent(d.nick);
        if random <= config.GetReplyNick() {
          return true;
        }
      }
      var random := Percent(d.rate);
      willReply := random <= config.GetReplyRate();
    }

    /**
     * reply(message): the text sent, if any. A reply goes out exactly when
     * the message holds a word the dictionary knows, and it is built around
     * one of those words.
     */
    method Reply(m: Message, d: Draws) returns (sent: Option<string>)
      requires Valid() && ValidDraws(d)
      ensures sent.None? <==> forall w :: w in MessageWords(m.content) ==> !dictionary.Knows(w)
      ensures sent.Some? ==> exists anchor ::
        anchor in MessageWords(m.content) && dictionary.Knows(anchor) &&
        sent.value == AroundWord(dictionary.lines, anchor, d.left, d.right)
    {
      var words := MessageWords(m.content);
      var knownWords := dictionary.GetKnownWords(words);
      if |knownWords| == 0 {
        assert forall w :: w in words ==> !dictionary.Knows(w) by {
          forall w | w in words ensures !dictionary.Knows(w) {
            assert w !in knownWords;
          }
        }
        return None;
      }
      var anchor := knownWords[RandomIndex(d.pick, |knownWords|)];
      assert anchor in knownWords;
      var finalSentence := dictionary.BuildAround(anchor, d.left, d.right);
      // SplitWords never yields "", and the sentence holds its anchor.
      assert |finalSentence| >= |anchor| > 0;
      if finalSentence == "" {
        return None;
      }
      sent := Some(finalSentence);
    }

    /** setProperty(prop, value): one setter of the configuration, or a throw. */
    method SetProperty(prop: string, value: string) returns (err: Option<string>)
      requires config.Valid()
      modifies config
      ensures config.Valid()
      ensures (config.properties, err) == SetPropertyResult(old(config.properties), prop, value)
    {
      if prop == "replyrate" || prop == "replynick" || prop == "replymagic" || prop == "autosaveperiod" {
        var f :=
          if prop == "replyrate" then ReplyRate
          else if prop == "replynick" then ReplyNick
          else if prop == "replymagic" then ReplyMagic
          else AutoSavePeriod;
        assert NamedField(prop) == Some(f);
        err := SetNumberProperty(f, value);
      } else if prop == "speaking" || prop == "learning" {
        var f := if prop == "speaking" then Speaking else Learning;
        assert NamedField(prop) == Some(f);
        err := SetFlagProperty(f, value);
      } else {
        return Some(InvalidProperty);
      }
    }

    /** The numeric cases of setProperty: parseInt, then the setter. */
    method SetNumberProperty(f: Field, value: string) returns (err: Option<string>)
      requires config.Valid()
      requires f == ReplyRate || f == ReplyNick || f == ReplyMagic || f == AutoSavePeriod
      modifies config
      ensures config.Valid()
      ensures (config.properties, err) == ApplyProperty(old(config.properties), f, value)
    {
      ghost var p0 := config.properties;
      var n := ParseInt(value);
      if n.Err? {
        NumberValueErr(f, value);
        ApplyPropertyErr(p0, f, value);
        return Some(n.error);
      }
      var v := JsNumber(n.value);
      assert PropertyValue(f, value) == Ok(v);
      var setterErr: Option<ConfigError>;
      if f == ReplyRate {
        setterErr := config.SetReplyRate(JsNumber(n.value));
      } else if f == ReplyNick {
        setterErr := config.SetReplyNick(JsNumber(n.value));
      } else if f == ReplyMagic {
        setterErr := config.SetReplyMagic(JsNumber(n.value));
      } else {
        setterErr := config.SetAutoSavePeriod(JsNumber(n.value));
      }
      SetterKeepsWellFormed(p0, f, v);
      ApplyPropertyOk(p0, f, value, v, setterErr);
      err := if setterErr.Some? then Some(ErrorText(setterErr.value)) else None;
    }

    /** The cases speaking and learning: the guard on the text, then the setter. */
    method SetFlagProperty(f: Field, value: string) returns (err: Option<string>)
      requires config.Valid()
      requires f == Speaking || f == Learning
      modifies config
      ensures config.Valid()
      ensures (config.properties, err) == ApplyProperty(old(config.properties), f, value)
    {
      ghost var p0 := config.properties;
      if BooleanGuard(value) {
        return Some(BooleanExpected);
      }
      var setterErr: Option<ConfigError>;
      if f == Speaking {
        setterErr := config.SetSpeaking(JsBool(value == "true"));
      } else {
        setterErr := config.SetLearning(JsBool(value == "true"));
      }
      SetterKeepsWellFormed(p0, f, JsBool(value == "true"));
      // Both setters accept any boolean.
      assert setterErr.None?;
      err := None;
    }

    /** admin(message). */
    method Admin(content: string) returns (result: AdminResult)
      requires config.Valid()
      modifies config
      ensures config.Valid()
      ensures (config.properties, result) == AdminOutcome(old(config.properties), content)
    {
      var input := Tokens(content);
      if |input| < 3 {
        return Silent;
      }
      var command := input[2];
      var args := input[3..];
      if command == "set" {
        if |args| != 2 {
          return Replied(SetUsage);
        }
        var err := SetProperty(args[0], args[1]);
        result := if err.Some? then Replied(err.value) else Silent;
      } else if command == "known" {
        result := if |args| != 1 then Replied(KnownUsage) else Crashed(MissingGetAllLinesContaining);
      } else if command == "forget" {
        result := if |args| != 1 then Replied(ForgetUsage) else Crashed(MissingForget);
      } else {
        result := Silent;
      }
    }

    /**
     * onMessage(message): drop it, hand it to admin, or learn from it (when
     * learning is on) and then perhaps reply, in the order Gate gives.
     */
    method OnMessage(m: Message, d: Draws) returns (out: Outcome)
      requires Valid() && ValidDraws(d)
      modifies config, dictionary
      ensures Valid()
      ensures out.Dropped? <==> Gate(old(config.properties), m) == Drop
      ensures out.Administered? <==> Gate(old(config.properties), m) == ToAdmin
      ensures out.Administered? ==>
        (config.properties, out.result) == AdminOutcome(old(config.properties), m.content) &&
        dictionary.lines == old(dictionary.lines) && dictionary.words == old(dictionary.words)
      ensures !out.Administered? ==> config.properties == old(config.properties)
      ensures out.Dropped? ==> dictionary.lines == old(dictionary.lines) && dictionary.words == old(dictionary.words)
      ensures out.Answered? ==>
        Knowledge(dictionary.lines, dictionary.words) ==
          if old(config.properties)[Learning].b
          then Learned(Knowledge(old(dictionary.lines), old(dictionary.words)), m.content,
                       Strings(old(config.properties)[BlacklistedWords].items))
          else Knowledge(old(dictionary.lines), old(dictionary.words))
      ensures out.Answered? && out.sent.Some? ==> WillReply(config.properties, m, d)
      ensures out.Answered? && WillReply(config.properties, m, d) ==>
        (out.sent.None? <==> forall w :: w in MessageWords(m.content) ==> !dictionary.Knows(w))
      ensures out.Answered? && out.sent.Some? ==> exists anchor ::
        anchor in MessageWords(m.content) && dictionary.Knows(anchor) &&
        out.sent.value == AroundWord(dictionary.lines, anchor, d.left, d.right)
    {
      if m.fromSelf {
        return Dropped;
      }
      if JsString(m.authorId) in config.GetAdmins() {
        if m.mentionsBot && StartsWithSemicolon(m.content) {
          var result := Admin(m.content);
          return Administered(result);
        }
      }
      if JsString(m.authorId) in config.GetIgnoredUsers() {
        return Dropped;
      }
      if !config.GetSpeaking() {
        return Dropped;
      }
      var sent := Converse(m, d);
      assert config.properties == old(config.properties);
      out := Answered(sent);
    }

    /** The end of onMessage: learn from the message when learning is on, then perhaps reply. */
    method Converse(m: Message, d: Draws) returns (sent: Option<string>)
      requires Valid() && ValidDraws(d)
      modifies dictionary
      ensures Valid()
      ensures Knowledge(dictionary.lines, dictionary.words) ==
        if config.properties[Learning].b
        then Learned(Knowledge(old(dictionary.lines), old(dictionary.words)), m.content,
                     Strings(config.properties[BlacklistedWords].items))
        else Knowledge(old(dictionary.lines), old(dictionary.words))
      ensures sent.Some? ==> WillReply(config.properties, m, d)
      ensures WillReply(config.properties, m, d) ==>
        (sent.None? <==> forall w :: w in MessageWords(m.content) ==> !dictionary.Knows(w))
      ensures sent.Some? ==> exists anchor ::
        anchor in MessageWords(m.content) && dictionary.Knows(anchor) &&
        sent.value == AroundWord(dictionary.lines, anchor, d.left, d.right)
    {
      if config.GetLearning() {
        var _ := dictionary.Learn(m.content, config.GetBlacklistedWords());
      }
      var willReply := GetWillReply(m, d);
      if willReply {
        sent := Reply(m, d);
      } else {
        sent := None;
      }
    }
  }
}
