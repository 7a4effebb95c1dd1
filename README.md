# asrielborg in Dafny

A model of the core of asrielborg, a Discord chat bot. The bot learns the
sentences and words people write and answers by stitching together two
sentences it already knows around a word of the new message. The model covers
both generations of the bot and the user registry of its web panel:

- **current generation**
  - `Util.js`: word and sentence splitting, regex escaping, the throwing
    parseInt, the mention test (module `Util`);
  - `Dictionary.js`: the learned lines and words, picking a line, building a
    sentence around a word, saving and loading (module `Dict`, class
    `Dictionary`);
  - `Config.js`: thirteen validated properties, their setters, getters and
    `load` (module `Settings`, class `Config`);
  - `AsrielBorg.js`: message gating, the reply decision, the reply, and the
    administrator commands (module `Borg`, class `AsrielBorg`);
- **legacy generation**, `main.js`: the same ideas over module-level arrays,
  with `set_option`, `validateconf`, the lines file format, `learn`,
  `process_message` and `reply_to` (module `Legacy`, class `LegacyBot`);
- **panel**, `server.js` and `user.js`: the registry of users who were issued a
  token, the id counter, and the nickname, password, login and magic-word
  checks (modules `Users` and `Panel`, classes `User` and `PanelServer`).

Two shared modules stand for the JavaScript runtime:

- `JsCore`: JSON-like values, Set operations over insertion-ordered
  sequences, ASCII case mapping, white space, ToNumber and the loose
  comparisons, and `Math.random` draws.
- `Regex`: `\b` word matching and the algorithm of `String.prototype.split`
  (section 22.2.6.14 of ECMA-262, the `@@split` method of RegExp), applied to
  the patterns the bot uses.

Randomness is a parameter: every `Math.random()` value is passed in as a real
in [0, 1). Reading a file becomes its text (or the error code) and writing one
becomes the text written. A Discord message is a record holding its author,
its content and the mention flags.

Where the code and the bot's documentation differ, the model follows the code:

- `buildAround` keeps only the last piece of the right-hand line
  (`splice(-1, 1)` returns one element), so nothing is re-joined.
- The legacy reply draw is in [0, 99], not [1, 100].
- The legacy `learn` logs blacklisted words but learns the message anyway.
- Panel logins accept passwords of 5 characters (a set password needs 6).
- The panel hands a magic word to the legacy `set_option` under the name
  `magicWords`, which `set_option` does not know, so the word is never stored.

Five defects are modelled both as written and corrected (see "## Findings"),
and the rest of the model uses the corrected versions; the rows describing
them say "corrected":

- `setProperty`'s guard on `speaking` and `learning` throws for every value;
  the model accepts exactly "true" and "false".
- The dictionary leaves `words` undefined when lines.txt is missing; the
  model starts both sets empty.
- The legacy `set_option` reads the undeclared `settings`; the model tests
  `setting`.
- The panel's lookups compare `user_id`, which no profile has; the model
  compares `userId`.
- `load_password` returns before its file is read, so the panel always
  starts without a password; the model starts with the file's hash.

## Model

| member | source | states |
|---|---|---|
| JsCore.Add | Dictionary.js:165 | Set.add: the elements grow by x, distinctness is kept, an element already present changes nothing |
| JsCore.AddAll | Dictionary.js:164-168 | adding each element in turn: the union of both, distinct if the set was, the old set a prefix |
| JsCore.AddAllIdempotent | Dictionary.js:164-168 | adding the same elements a second time changes nothing |
| JsCore.Dedup | Util.js:8 | new Set(xs): the same elements, each once |
| JsCore.Delete | Util.js:9 | Set.delete: the elements lose x and stay distinct |
| JsCore.Lower | Dictionary.js:45 | toLowerCase keeps the length and maps each character to its lower case |
| JsCore.LowerIsLowerCase | Config.js:139 | a lower-cased string is in lower case, and lower-casing it again changes nothing |
| JsCore.TrimStart | Util.js:40 | the white space parseInt skips: a suffix whose first character is not white space, all dropped characters white space |
| JsCore.TrimEnd | main.js:132 | trailing white space removed: a prefix not ending in white space, all dropped characters white space |
| JsCore.RandomIndex | Dictionary.js:124 | Math.floor(r * n) for r in [0, 1) is an index below n |
| JsCore.Percent | AsrielBorg.js:98 | Math.floor(r * 100) + 1 lies in [1, 100] |
| Regex.SplitAvoids | Util.js:32 | a character at which every occurrence starts a match appears in no piece of the split |
| Regex.FirstPartBeforeFirstMatch | Dictionary.js:139 | split(pattern)[0] is the text before the first match, or the whole text without one |
| Regex.FirstPartBeforeFirstWord | Dictionary.js:139 | splitting on /\bw\b/gi: the first piece ends at the first whole-word match and none starts before it |
| Regex.LastPartAfterLastWord | Dictionary.js:140-143 | the last piece starts right after the last whole-word match and no match starts in it |
| Regex.SplitCharClass | Util.js:8 | the split algorithm on a one-character class equals the reference definition SplitChars |
| Regex.SplitCharsReassembles | Util.js:8 | the pieces hold no delimiter and, woven back with the delimiters, give the text |
| Regex.SplitJoin | AsrielBorg.js:168 | content.split(' ').join(' ') gives the content back |
| Regex.SplitRejoins | Util.js:32 | for a pattern that looks only at the text it matches: no piece of the split holds a match, every removed text is one whole match, and the pieces with the removed texts between them give the text back |
| Regex.Escape | Util.js:19 | the escaped text is longer by the number of metacharacters |
| Regex.EscapeIsLiteral | Util.js:19 | the escaped text leaves no metacharacter bare and denotes exactly the original text |
| Regex.EscapePlain | Util.js:19 | text without metacharacters is its own escape |
| Util.SplitWords | Util.js:7-11 | splitWords: distinct, non-empty, delimiter-free, exactly the non-empty pieces between delimiters |
| Util.RemoveCR | Util.js:29 | replace(/\r/gm, ''): no carriage return is left and every other character is kept |
| Util.SplitSentences | Util.js:27-33 | splitSentences: distinct sentences, none holding a line feed or a carriage return |
| Util.SentenceBreakFree | Util.js:32 | text where the sentence break (a run of line feeds, or a period and its white space) matches nowhere is text with no line feed and no period followed by white space |
| Util.SplitSentencesPieces | Util.js:27-33 | splitSentences keeps exactly the distinct pieces of the text without '\r': no piece holds a match of the break pattern, every removed text is a match, and pieces and removed texts alternate to give that text back |
| Util.EscapeRegex | Util.js:18-20 | escapeRegex: longer by the metacharacter count, and the result read as a pattern matches exactly the input |
| Util.ParseInt | Util.js:39-44 | the only error thrown is 'invalid number specified' |
| Util.ParseIntSpec | Util.js:39-44 | after white space, an optional sign and an optional 0x or 0X (base 16), parseInt succeeds iff a digit of the base follows, and gives the sign times the value of the longest digit run |
| Util.ParseIntShowInt | Util.js:39-44 | the decimal notation of any integer, after white space and before non-digits, parses back to it |
| Util.ParseIntNoDigits | Util.js:39-44 | with no digit after the white space and the sign, parseInt throws |
| Util.IsDiscordMention | Util.js:51-53 | isDiscordMention: some match of /<@(!)?.*>/ exists; IsDiscordMentionSpec states which texts have one |
| Util.IsDiscordMentionSpec | Util.js:51-53 | isDiscordMention holds iff some "<@" is followed by a later '>' with no line terminator between |
| Dict.LoadedLines | Dictionary.js:45-47 | the lines load keeps are distinct |
| Dict.LoadedWords | Dictionary.js:45-49 | the words load keeps are distinct |
| Dict.MatchingLines | Dictionary.js:108-117 | the lines holding the word, ignoring case, are exactly those kept, and no more |
| Dict.PickLine | Dictionary.js:119-124 | '' iff no line holds the word; otherwise a stored line that holds it |
| Dict.AroundWord | Dictionary.js:132-146 | buildAround with its two draws: the text of one picked line before the word, the word, the text of another after it; the two lemmas below say what that is |
| Dict.AroundUnknownWord | Dictionary.js:132-146 | with no line holding the word, buildAround returns the word alone |
| Dict.AroundKnownWord | Dictionary.js:132-146 | otherwise: a line's text before the first match, the word, another line's text after the last match |
| Dict.Learned | Dictionary.js:152-169 | a blacklisted word leaves both sets unchanged; otherwise they gain the sentences and words, keep the old ones first and stay distinct |
| Dict.LearnedIdempotent | Dictionary.js:164-168 | learning the same text twice gives the sets learning it once gives |
| Dict.SaveText | Dictionary.js:56-65 | the text save writes: every sentence of every line, each followed by '\n'; stated by the lemmas below |
| Dict.SaveTextClean | Dictionary.js:58-65 | for clean sentences the saved text is each line followed by '\n' |
| Dict.SaveLoadRoundTrip | Dictionary.js:45-65 | saving clean, distinct sentences and loading the text gives them back in order, plus the empty piece after the last '\n' |
| Dict.SaveLoadSteady | Dictionary.js:45-65 | the steady state: distinct clean sentences followed by the empty piece, saved and loaded again, give exactly the same lines |
| Dict.LoadAsWritten | Dictionary.js:32-37 | as written, a missing file sets lines to an empty set and leaves words undefined |
| Dict.LearnAsWritten | Dictionary.js:152-169 | learn over a state whose words may be undefined: the sentences are added, then the first word throws a TypeError; MissingFileBreaksLearn states it |
| Dict.MissingFileBreaksLearn | Dictionary.js:164-168 | after that, learning a message with a word throws, with its sentences already added |
| Dict.Dictionary.constructor | Dictionary.js:16-21 | an empty dictionary before load fills it |
| Dict.Dictionary.Load | Dictionary.js:23-54 | a missing file gives empty lines and words; another error is rethrown and changes nothing; text gives the lower-cased sentences and words |
| Dict.Dictionary.Save | Dictionary.js:56-72 | the text written is SaveText of the lines |
| Dict.Dictionary.Knows | Dictionary.js:79-82 | whether the word is in the words set: the test getKnownWords filters by |
| Dict.Dictionary.GetKnownWords | Dictionary.js:88-97 | exactly the argument's words that the dictionary knows, each once |
| Dict.Dictionary.GetRandomLineContaining | Dictionary.js:104-125 | the loop's result is PickLine of the stored lines |
| Dict.Dictionary.BuildAround | Dictionary.js:132-146 | the result is AroundWord on the stored lines and the two draws |
| Dict.Dictionary.Learn | Dictionary.js:152-169 | refuses exactly when a word is blacklisted; the new sets are Learned of the old |
| Settings.Setter | Config.js:66-174 | a setter throws iff its value is refused, then changes nothing; otherwise it stores the value (lower-cased for word lists) under its field, and no other field changes |
| Settings.Defaults | Config.js:22-42 | the thirteen properties the constructor sets, each at its default; DefaultsWellFormed proves them well formed |
| Settings.LoadFields | Config.js:48-64 | load's setter calls in order, stopping at the first throw; the three LoadFields lemmas state the result |
| Settings.LoadFieldsError | Config.js:48-64 | load throws exactly at the first setter that refuses its value, with that setter's message |
| Settings.LoadFieldsValue | Config.js:48-64 | load is not atomic: fields before the first refusal hold their new value, the rest keep the old one |
| Settings.LoadFieldsKeys | Config.js:48-64 | load adds keys and never removes one |
| Settings.DefaultWellFormed | Config.js:27-41 | each default is a value its setter takes, the word lists in lower case |
| Settings.DefaultsWellFormed | Config.js:22-42 | the constructor's properties are well formed |
| Settings.StoredWellFormed | Config.js:134-174 | what a setter stores would pass that setter again |
| Settings.SetterKeepsWellFormed | Config.js:66-174 | every setter keeps the properties well formed |
| Settings.LoadKeepsWellFormed | Config.js:48-64 | load keeps the properties well formed whether or not a setter throws |
| Settings.SetterTakesOwnValue | Config.js:66-174 | a setter takes back what a well-formed record holds, unchanged |
| Settings.WriteLoadRoundTrip | Config.js:44-64 | loading what write hands to JSON.stringify gives the same properties and throws nothing |
| Settings.Config.constructor | Config.js:22-42 | the properties are the defaults |
| Settings.Config.Write | Config.js:44-46 | write serialises the properties object itself |
| Settings.Config.SetToken | Config.js:66-71 | the new state and error are Setter's for the token |
| Settings.Config.SetReplyRate | Config.js:73-81 | the new state and error are Setter's for replyRate |
| Settings.Config.SetReplyNick | Config.js:83-91 | the new state and error are Setter's for replyNick |
| Settings.Config.SetReplyMagic | Config.js:93-101 | the new state and error are Setter's for replyMagic |
| Settings.Config.SetSpeaking | Config.js:103-108 | the new state and error are Setter's for speaking |
| Settings.Config.SetLearning | Config.js:110-115 | the new state and error are Setter's for learning |
| Settings.Config.SetPingUsers | Config.js:117-122 | the new state and error are Setter's for pingUsers |
| Settings.Config.SetAutoSavePeriod | Config.js:124-132 | the new state and error are Setter's for autoSavePeriod (0 accepted, negatives refused) |
| Settings.Config.LowerEach | Config.js:139 | m.map(str => str.toLowerCase()) succeeds iff every element is a string, and lower-cases each |
| Settings.Config.SetMagicWords | Config.js:134-141 | the new state and error are Setter's for magicWords |
| Settings.Config.SetBlacklistedWords | Config.js:143-150 | the new state and error are Setter's for blacklistedWords |
| Settings.Config.SetAdmins | Config.js:152-157 | the new state and error are Setter's for admins |
| Settings.Config.SetIgnoredUsers | Config.js:159-164 | the new state and error are Setter's for ignoredUsers |
| Settings.Config.SetUsernameAliases | Config.js:166-174 | the new state and error are Setter's for usernameAliases |
| Settings.Config.Load | Config.js:48-64 | the thirteen setters in order: the new state and error are LoadFields over LoadOrder |
| Settings.Config.GetToken | Config.js:176 | the token exactly as stored, which is a string |
| Settings.Config.GetReplyRate | Config.js:177 | the reply rate is in [0, 100] |
| Settings.Config.GetReplyNick | Config.js:178 | the nick rate is in [0, 100] |
| Settings.Config.GetReplyMagic | Config.js:179 | the magic rate is in [0, 100] |
| Settings.Config.GetSpeaking | Config.js:180 | the boolean stored for speaking |
| Settings.Config.GetLearning | Config.js:181 | the boolean stored for learning |
| Settings.Config.GetPingUsers | Config.js:182 | the boolean stored for pingUsers |
| Settings.Config.GetAutoSavePeriod | Config.js:183 | the period is not negative |
| Settings.Config.GetMagicWords | Config.js:184 | a copy of the stored list, every word in lower case |
| Settings.Config.GetBlacklistedWords | Config.js:185 | a copy of the stored list, every word in lower case |
| Settings.Config.GetAdmins | Config.js:186 | a copy of the stored list |
| Settings.Config.GetIgnoredUsers | Config.js:187 | a copy of the stored list |
| Settings.Config.GetUsernameAliases | Config.js:188 | a copy of the stored list, every alias in lower case |
| Borg.WillReply | AsrielBorg.js:86-125 | the reply decision: a magic word and its draw within replyMagic, a mention and its draw within replyNick, or the plain draw within replyRate; GetWillReply's loop computes it |
| Borg.NoReplyAtZeroRates | AsrielBorg.js:98-120 | with all three rates at 0 the bot never replies |
| Borg.ReplyAtFullRate | AsrielBorg.js:119-125 | with replyRate 100 the bot always replies |
| Borg.WillReplyMonotone | AsrielBorg.js:86-125 | raising any rate never turns a reply into silence |
| Borg.Tokens | AsrielBorg.js:168 | content.split(' '): at least one token, and joined by spaces they give the content |
| Borg.ParseAdmin | AsrielBorg.js:168-176 | nothing with fewer than 3 tokens; else the command is token 2 and the arguments are the tokens after it |
| Borg.NamedField | AsrielBorg.js:233-266 | the six names setProperty knows, each the lower-cased key of the property it selects; any other name has no property |
| Borg.BooleanGuardAsWrittenThrows | AsrielBorg.js:248-255 | the guard as written holds for every value, "true" and "false" included |
| Borg.PropertyValue | AsrielBorg.js:235-260 | corrected (see Findings): the flags take exactly "true" and "false" and store the boolean; the numbers are parseInt's result, or its throw |
| Borg.SetPropertyResult | AsrielBorg.js:231-268 | corrected (see Findings): an unknown name throws; a throw changes nothing; success stores the read value under the one selected property |
| Borg.ApplyProperty | AsrielBorg.js:235-260 | corrected (see Findings): once a property is chosen: a throw changes nothing, success means its setter took the value and only that property changed |
| Borg.AdminOutcome | AsrielBorg.js:166-224 | corrected (see Findings): fewer than 3 tokens is silent; `set` with 2 arguments gives SetPropertyResult's properties and replies its error (silent on success), otherwise the usage; `known` and `forget` with 1 argument crash on the missing dictionary method, otherwise reply their usage; any other command is silent; only `set` changes the properties |
| Borg.Gate | AsrielBorg.js:55-72 | onMessage's routing: the bot's own message is dropped, an admin's mention starting with ';' is a command, then ignored users and a silent bot are dropped; ConverseOnlyWhenSpeaking states it |
| Borg.ConverseOnlyWhenSpeaking | AsrielBorg.js:55-72 | a message reaches learning and replying only if it is not the bot's own, its author is not ignored and speaking is on |
| Borg.AsrielBorg.constructor | AsrielBorg.js:17-20 | the bot holds the given configuration and dictionary |
| Borg.AsrielBorg.Create | AsrielBorg.js:17-32 | corrected (see Findings): a read error other than ENOENT is thrown; otherwise creation fails iff the token is empty; a created bot holds the configuration and a fresh, valid dictionary whose lines and words are those loaded from the file's text, both empty when it is missing |
| Borg.AsrielBorg.GetWillReply | AsrielBorg.js:86-126 | the loop's answer is WillReply: magic word and draw within replyMagic, or mention and draw within replyNick, or draw within replyRate |
| Borg.AsrielBorg.Reply | AsrielBorg.js:132-160 | nothing is sent iff no message word is known; otherwise a sentence built around a known word of the message |
| Borg.AsrielBorg.SetProperty | AsrielBorg.js:231-268 | corrected (see Findings): the configuration and error are SetPropertyResult's, and the configuration stays well formed |
| Borg.AsrielBorg.SetNumberProperty | AsrielBorg.js:235-245 | the numeric cases: parseInt, then the setter, as ApplyProperty says |
| Borg.AsrielBorg.SetFlagProperty | AsrielBorg.js:247-257 | the flag cases with the corrected guard, as ApplyProperty says |
| Borg.AsrielBorg.Admin | AsrielBorg.js:166-224 | corrected (see Findings): the configuration and answer are AdminOutcome's |
| Borg.AsrielBorg.OnMessage | AsrielBorg.js:50-80 | corrected (see Findings): own messages, ignored users and a silent bot are dropped before learning; admin commands change only the configuration; otherwise the dictionary learns when learning is on, a reply implies WillReply and a known anchor, and when the bot will reply nothing is sent iff no message word is known |
| Borg.AsrielBorg.Converse | AsrielBorg.js:74-79 | learns iff learning is on; a reply implies WillReply and is built around a known word of the message; when WillReply holds, nothing is sent iff no message word is known |
| Legacy.KeyOf | main.js:41-55 | the key a property name selects spells that name |
| Legacy.GetWords | main.js:416-418 | get_words: the pieces hold no delimiter, empty ones kept, and woven back with the delimiters give the line |
| Legacy.GetWordsKeepsEmpty | main.js:416-418 | unlike splitWords, "hi!" gives ["hi", ""] |
| Legacy.Quote | main.js:381-383 | RegExp.quote: longer by the metacharacter count, and the result read as a pattern matches exactly the input |
| Legacy.ContainsCaseInsensitive | main.js:391-397 | contains_case_insensitive: some element equals x once both are lower-cased |
| Legacy.ChooseFrom | main.js:404-409 | choose_from is null iff the array is empty, and otherwise one of its elements |
| Legacy.Unique | main.js:362-374 | unique: no duplicates and exactly the elements of the input, except '__proto__', which the object's prototype setter drops |
| Legacy.Defaults | main.js:23-38 | the configuration written to config.json on first start; DefaultsConform proves it passes validateconf |
| Legacy.Conforms | main.js:94-143 | every assertion of validateconf holds; FailedCheck ties it to the first failed assertion |
| Legacy.FailedCheck | main.js:94-143 | no assertion fails iff the data conforms; otherwise the failed property is one validateconf checks |
| Legacy.DefaultsConform | main.js:23-38 | the configuration written on first start passes validateconf |
| Legacy.SpaceSeparatedJoin | main.js:130-133 | the pieces joined by spaces give the lower-cased, trimmed text, and none holds a space |
| Legacy.Validated | main.js:129-145 | the stored configuration has both word lists as string arrays (blacklist [] when absent), everything else as given |
| Legacy.SetOptionAsWritten | main.js:41-59 | set_option as written: the rates and 'speaking' as coded, every other setting the ReferenceError; SetOptionAsWrittenThrows states it |
| Legacy.SetOptionAsWrittenThrows | main.js:46 | as written, every setting past the rates and 'speaking' throws the ReferenceError |
| Legacy.SetOptionResult | main.js:41-59 | corrected: out-of-range rates, flags and periods are ignored silently, word lists are split, only a non-string word list throws, no other key changes |
| Legacy.SetOptionAgreesBeforeTypo | main.js:42-49 | as written and corrected agree on the rates and 'speaking' |
| Legacy.Without | main.js:173-175 | filter(el => el !== x): exactly the other elements |
| Legacy.LinesOf | main.js:168-175 | known_lines after loadlines: the lower-cased text without '\r' split at '\n' and '. ' with the separators kept, the '\n' ones filtered out |
| Legacy.JoinCRLF | main.js:332 | known_lines.join('\r\n'), what save_lines writes; SaveLoadRoundTrip loads it back |
| Legacy.LoadKeepsSentenceBreaks | main.js:172-175 | the captured '. ' separators stay as lines of their own |
| Legacy.SaveLoadRoundTrip | main.js:168-175 | lower-case lines with no break inside, joined by '\r\n', load back as the same lines |
| Legacy.SaveLoadEmpty | main.js:332 | an empty array saves as '', which loads back as the single line '' |
| Legacy.Sentences | main.js:294-296 | the lower-cased message split at '. ' and '\n', the sentences learn goes through |
| Legacy.Learned | main.js:294-326 | the lines gain the new sentences, each once and after the old; the words change only when some sentence is new, and then gain the message's new words |
| Legacy.LearnedIdempotent | main.js:312-324 | learning the same message twice gives what learning it once gives |
| Legacy.LearnedNewLine | main.js:312-324 | a sentence not yet known makes learn append it and the message's new words |
| Legacy.AddWords | main.js:319-324 | the inner loop pushes exactly the words not yet known |
| Legacy.LearnSentences | main.js:312-325 | the outer loop: the sentences are added, and the words only when some sentence was new |
| Legacy.Recognized | main.js:260-265 | the message words that are known, and only those |
| Legacy.ContainsMagic | main.js:230-238 | contains_magic holds iff some magic word is among the words, ignoring case |
| Legacy.Chance | main.js:240 | the draw lies in [0, 99], and is 0 iff r * 100 < 1 |
| Legacy.ReplyCondition | main.js:240-246 | one draw for all three checks: a magic word and the draw within replymagic, the bot's name and the draw within replynick, or the draw within replyrate |
| Legacy.ZeroRatesStillReply | main.js:240-246 | with all rates 0 the bot replies exactly when the draw is 0 |
| Legacy.RateOf99AlwaysReplies | main.js:240-246 | a replyrate of 99 already answers every message |
| Legacy.ReplyText | main.js:256-289 | no reply iff no message word is known; otherwise a sentence built around a known word |
| Legacy.LegacyBot.constructor | main.js:16-38 | the default configuration and no lines or words |
| Legacy.LegacyBot.ValidateConf | main.js:94-147 | a failed assertion keeps the old configuration; otherwise the configuration is Validated(data) |
| Legacy.LegacyBot.SetOption | main.js:41-59 | corrected set_option: the new configuration or error is SetOptionResult's, and an error changes nothing |
| Legacy.LegacyBot.LoadLines | main.js:164-177 | the lines are LinesOf(text); the words are the distinct words of the lower-cased text without CR, except '__proto__' |
| Legacy.LegacyBot.SaveLines | main.js:331-332 | the text save_lines writes: lines with no break inside and no capitals load back as the same lines, and no lines load back as the single line '' |
| Legacy.LegacyBot.Learn | main.js:294-326 | the new arrays are Learned of the old ones; blacklisted words do not stop learning |
| Legacy.LegacyBot.GetRandomLineContaining | main.js:345-355 | the loop's result is PickLine of the known lines |
| Legacy.LegacyBot.ReplyTo | main.js:256-289 | the sentence sent is ReplyText of the known lines and words |
| Legacy.LegacyBot.ProcessMessage | main.js:215-250 | learns the lower-cased message iff learning is truthy; sends ReplyText only when speaking is truthy and one draw within replymagic, replynick or replyrate allows it |
| Users.User.constructor | user.js:6-8 | the profile is the decoded token itself and the status is 'offline' |
| Users.User.SetStatus | user.js:10-12 | the status becomes s and the profile is unchanged |
| Panel.TokenProfileIssued | server.js:238-242 | the payload has the three fields, userId the counter, and no user_id |
| Panel.OnlineAmong | server.js:281-285 | the filter keeps exactly the online users |
| Panel.OnlineAmongConcat | server.js:281-285 | the filter keeps registry order: it distributes over concatenation |
| Panel.TakenAmong | server.js:301-305 | a string name is taken iff some online user has it, ignoring case |
| Panel.TakenByOtherAmong | server.js:306-310 | a User is taken iff another online user with its name differs under the compared key |
| Panel.FirstWithField | server.js:318-322 | find stops at the first profile with the value, or at the end |
| Panel.FindWithField | server.js:318-322 | undefined iff no profile has the value; otherwise a registered user that has it |
| Panel.GetUserByTokenAsWrittenFirst | server.js:318-322 | as written, every issued token finds the first registered user |
| Panel.TakenByOtherAsWrittenNever | server.js:306-310 | as written, no registered user is ever taken by another |
| Panel.AppendIssued | server.js:241-245 | registering a user under the counter keeps ids increasing and below the counter |
| Panel.GetUserByIdFindsOwner | server.js:318-322 | corrected, a registered user's token finds that very user |
| Panel.TakenByOtherFindsNamesake | server.js:306-310 | corrected, another online user with the same name makes a registered user taken |
| Panel.LoginCheck | server.js:159-207 | a token is granted iff a password is set, the nickname is available, the password has 5 to 100 characters and its hash matches; refusals in the source's order |
| Panel.SetPasswordResult | server.js:124-150 | success iff no password is set and the new one has 6 to 100 characters; only then the hash changes |
| Panel.PasswordSetOnce | server.js:130-133 | once a password is set, no series of requests changes it |
| Panel.SetThenLogin | server.js:124-207 | a password just set opens the panel for an available nickname |
| Panel.RestartReopensPassword | server.js:37-63 | as written, load_password returns '' before readFile's callback runs, so after every start the first new password of 6 to 100 characters is taken, whatever the file holds |
| Panel.StoredPasswordSurvivesRestart | server.js:37-63 | corrected: with the file read first, a stored hash is the starting hash and survives every later new-password request |
| Panel.MagicWordCheck | server.js:385-398 | success iff a string of 1 to 20 characters, with the source's messages |
| Panel.MagicWordNeverStored | server.js:393 | set_option('magicWords', ...) throws as written, and stores nothing even corrected |
| Panel.SubmitMagicWord | server.js:379-400 | only refusals are emitted: an accepted word throws before the response |
| Panel.PanelServer.constructor | server.js:92-98 | corrected (see Findings): the hash startServer stores is the password file's text, or '' when it cannot be read; the registry (server.js:223-224) starts empty and the counter at 1 |
| Panel.PanelServer.GetOnlineUsers | server.js:281-285 | exactly the online registered users |
| Panel.PanelServer.CheckUsernameTaken | server.js:299-305 | taken iff some online registered user has the name, ignoring case |
| Panel.PanelServer.RateNickname | server.js:262-276 | each of the four ratings iff its condition: not a string, a string outside 3 to 20 characters, and for 3 to 20 characters 'taken' or 'available' by CheckUsernameTaken |
| Panel.PanelServer.GenerateToken | server.js:237-248 | the payload has userId the old counter, the counter grows by 1, exactly one fresh offline user with that profile is appended |
| Panel.PanelServer.GetUserByTokenAsWritten | server.js:318-322 | as written, the first registered user for any issued token |
| Panel.PanelServer.GetUserByToken | server.js:318-322 | corrected: none iff no registered userId equals the token's; otherwise a user with it |
| Panel.PanelServer.SetPassword | server.js:124-150 | the new hash and reply are SetPasswordResult's |
| Panel.PanelServer.Login | server.js:152-209 | a token is issued and one user registered iff LoginCheck grants; a refusal changes nothing |
| Panel.PanelServer.Post | server.js:122-210 | a string new_password gives SetPasswordResult's hash and reply and leaves the registry and counter alone; otherwise two strings give Login's outcome: a grant issues TokenProfile's token and registers one user, a refusal replies LoginCheck's message and changes nothing; anything else sends nothing and changes nothing |

## Left out

- Discord: logging in, event wiring and sending; a message is a record and a reply is the text that would be sent.
- File access, JSON text and timers: reading and writing files, JSON.parse and JSON.stringify, and the autosave intervals. The model keeps the text-to-state and state-to-text transforms.
- Logging (Logger.js, log.js) and the startup code (Start.js).
- The web server: express routes, cookies, socket.io events and the connection and disconnect handlers, JWT signing and verification, SHA-256 (the digest is a parameter).
- Bot.get_option, Bot.retrieveAllOptions and server.server_start: the panel and main.js call them, but main.js does not define them.
- The dictionary methods forget and getAllLinesContaining: AsrielBorg.js calls them and Dictionary.js does not define them. The call is modelled as the TypeError it throws.
- The Config access mismatch: Dictionary.js and AsrielBorg.js read config.token, config.blacklistedWords and the like directly, which Config.js keeps under properties. The model reads them through Config's getters.
- Numbers are integers. Fractional rates, NaN other than a failed parse, Infinity and hexadecimal strings in ToNumber are not modelled.
- ToNumber of objects and arrays is not modelled: the loose comparisons are exact for strings, numbers, booleans and undefined.
- Characters: lower-casing is ASCII only, and lengths count characters where JavaScript counts UTF-16 code units.
- Dict.AroundWord: buildAround puts the word into its pattern unescaped. The model treats the pattern as the literal word, which differs for words holding regex metacharacters.
- Legacy.Unique: a JavaScript object lists integer-like keys first in ascending order. The model keeps insertion order (the dropped '__proto__' is modelled).
- Legacy.SetOptionResult: the TypeError message for a non-string word list is one fixed text.
- Borg.AsrielBorg.Create: the Discord client and its login are left out; only the empty-token check of connect is modelled.
- main.js's validateconf runs after an asynchronous file read and then calls loadlines; the model treats each as one call.
- Panel.PanelServer.constructor: a read error thrown inside readFile's callback, and the blank file load_password creates, are not modelled; only the hash the panel starts with is.
- writePasswordFile (server.js:69-77) is never called, so a password set through the panel is not written to the file; the model keeps it in memory only, as the source does.
- The user.js profile is any decoded token. Fields other than nickname, ipAddress and userId are one Other key.

## Findings

| source | as written | input that shows it | evidently intended | confidence | as-written member | corrected member |
|---|---|---|---|---|---|---|
| Dictionary.js:32-37 | a missing lines.txt sets `lines` but leaves `words` undefined | no lines.txt, then any message with a word that is not blacklisted: learn adds its sentences and then throws a TypeError on `this.words.add` | a missing file gives an empty dictionary | not executed | Dict.MissingFileBreaksLearn | Dict.Dictionary.Load |
| AsrielBorg.js:248-255 | the guard `value !== 'true' \|\| value !== 'false'` holds for every value | `set speaking true` throws 'value must be either true or false' | throw unless the value is "true" or "false" | not executed | Borg.BooleanGuardAsWrittenThrows | Borg.AsrielBorg.SetFlagProperty |
| main.js:46 | the test reads `settings`, an undeclared name | set_option('learning', 0), or any setting past the rates and 'speaking', throws a ReferenceError | the test on `setting` | not executed | Legacy.SetOptionAsWrittenThrows | Legacy.LegacyBot.SetOption |
| server.js:309, 320 | lookups compare `profile.user_id`, which generateToken never sets (it sets `userId`) | two registered users: getUserByToken with the second's token returns the first | compare `profile.userId` | not executed | Panel.GetUserByTokenAsWrittenFirst | Panel.GetUserByIdFindsOwner |
| server.js:37-63, 98 | load_password returns its local '' before the asynchronous readFile callback assigns the file's text | a password file holding a digest, a restart, then any new_password of 6 to 100 characters: it is accepted and replaces the password | return the hash read from the file | not executed | Panel.RestartReopensPassword | Panel.StoredPasswordSurvivesRestart |
