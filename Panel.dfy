/**
 * The web panel's server-side state (server.js): the registry of users that
 * were issued a token, the counter that numbers them, and the hash of the
 * panel password; with the nickname rating, the login and password-setting
 * checks of the POST handler, the registry lookups used by the socket
 * handlers, and the bounds on a submitted magic word.
 */
module Panel {
  import opened JsCore
  import opened Users
  import Legacy
  import Dict

  const MinNickLength := 3
  const MaxNickLength := 20
  const MinPassLength := 6
  const MaxPassLength := 100
  const MaxMagicWordLength := 20
  const MinMagicWordLength := 1
  /** The login form accepts passwords of 5 to 100 characters before hashing them. */
  const MinLoginPassLength := 5

  /** The payload generateToken signs and stores as the new user's profile. */
  function TokenProfile(nick: string, ip: string, id: int): Profile
  {
    map[Nickname := JsString(nick), IpAddress := JsString(ip), UserId := JsNumber(id)]
  }

  /** `profile.user_id`, the key that checkUsernameTaken and getUserByToken read. */
  const SnakeUserId := Other("user_id")

  /** A profile made by generateToken: a string nickname and address and a numeric id, nothing else. */
  predicate Issued(p: Profile)
  {
    p.Keys == {Nickname, IpAddress, UserId} &&
    p[Nickname].JsString? && p[IpAddress].JsString? && p[UserId].JsNumber?
  }

  lemma TokenProfileIssued(nick: string, ip: string, id: int)
    ensures Issued(TokenProfile(nick, ip, id))
    ensures Field(TokenProfile(nick, ip, id), UserId) == JsNumber(id)
    ensures Field(TokenProfile(nick, ip, id), SnakeUserId) == JsUndefined
  {
  }

  function IdOf(p: Profile): int
    requires Issued(p)
  {
    p[UserId].n
  }

  // ---------------------------------------------------------------------
  // Lookups over the registry
  // ---------------------------------------------------------------------

  /** Every user's nickname is a string, so toLowerCase does not throw. */
  predicate Named(us: seq<User>)
    reads us
  {
    forall i :: 0 <= i < |us| ==> Field(us[i].profile, Nickname).JsString?
  }

  /** `el.profile.nickname.toLowerCase() === lowered && el.status === 'online'`. */
  predicate OnlineAs(u: User, lowered: string)
    reads u
    requires Field(u.profile, Nickname).JsString?
  {
    Lower(Field(u.profile, Nickname).s) == lowered && u.status == Online
  }

  /** `registeredUsers.filter(user => user.status === 'online')`. */
  function OnlineAmong(us: seq<User>): (r: seq<User>)
    reads us
    ensures |r| <= |us|
    ensures forall i :: 0 <= i < |r| ==> r[i] in us && r[i].status == Online
    ensures forall i :: 0 <= i < |us| && us[i].status == Online ==> us[i] in r
  {
    if us == [] then []
    else
      var rest := OnlineAmong(us[1..]);
      assert forall i :: 1 <= i < |us| ==> us[i] == us[1..][i - 1];
      (if us[0].status == Online then [us[0]] else []) + rest
  }

  /** The filter keeps the registry's order: it distributes over concatenation. */
  lemma {:induction false} OnlineAmongConcat(a: seq<User>, b: seq<User>)
    ensures OnlineAmong(a + b) == OnlineAmong(a) + OnlineAmong(b)
  {
    if a == [] {
      assert a + b == b;
    } else {
      assert (a + b)[0] == a[0];
      assert (a + b)[1..] == a[1..] + b;
      OnlineAmongConcat(a[1..], b);
    }
  }

  /** `checkUsernameTaken(nickname)` for a string: is some online user called lowered, ignoring case? */
  function TakenAmong(us: seq<User>, lowered: string): (r: bool)
    reads us
    requires Named(us)
    ensures r <==> exists i :: 0 <= i < |us| && OnlineAs(us[i], lowered)
  {
    if us == [] then false
    else
      var rest := TakenAmong(us[1..], lowered);
      assert Named(us[1..]) by {
        forall i | 0 <= i < |us[1..]| ensures Field(us[1..][i].profile, Nickname).JsString? {
          assert us[1..][i] == us[i + 1];
        }
      }
      assert rest <==> exists i :: 1 <= i < |us| && OnlineAs(us[i], lowered) by {
        if rest {
          var i :| 0 <= i < |us[1..]| && OnlineAs(us[1..][i], lowered);
          assert us[i + 1] == us[1..][i];
        }
        if exists i :: 1 <= i < |us| && OnlineAs(us[i], lowered) {
          var i :| 1 <= i < |us| && OnlineAs(us[i], lowered);
          assert us[1..][i - 1] == us[i];
        }
      }
      OnlineAs(us[0], lowered) || rest
  }

  /**
   * The test checkUsernameTaken(user) applies to u: online, called like
   * user ignoring case, and differing from user under key.
   */
  predicate OtherAs(u: User, user: User, key: ProfileKey)
    reads u, user
    requires Field(u.profile, Nickname).JsString? && Field(user.profile, Nickname).JsString?
  {
    OnlineAs(u, Lower(Field(user.profile, Nickname).s)) && Field(u.profile, key) != Field(user.profile, key)
  }

  /**
   * `checkUsernameTaken(user)` for a User: is another online user, one whose
   * profile differs from the given user's under key, called the same?
   * The source compares on SnakeUserId; the corrected check on UserId.
   */
  function TakenByOtherAmong(us: seq<User>, user: User, key: ProfileKey): (r: bool)
    reads us, user
    requires Named(us) && Field(user.profile, Nickname).JsString?
    ensures r <==> exists i :: 0 <= i < |us| && OtherAs(us[i], user, key)
  {
    if us == [] then false
    else
      assert Named(us[1..]) by {
        forall i | 0 <= i < |us[1..]| ensures Field(us[1..][i].profile, Nickname).JsString? {
          assert us[1..][i] == us[i + 1];
        }
      }
      var rest := TakenByOtherAmong(us[1..], user, key);
      assert rest <==> exists i :: 1 <= i < |us| && OtherAs(us[i], user, key) by {
        if rest {
          var i :| 0 <= i < |us[1..]| && OtherAs(us[1..][i], user, key);
          assert us[i + 1] == us[1..][i];
        }
        if exists i :: 1 <= i < |us| && OtherAs(us[i], user, key) {
          var i :| 1 <= i < |us| && OtherAs(us[i], user, key);
          assert us[1..][i - 1] == us[i];
        }
      }
      OtherAs(us[0], user, key) || rest
  }

  /**
   * Where `registeredUsers.find(user => user.profile[key] === v)` stops: the
   * first position whose profile holds v under key, or |us|.
   */
  function FirstWithField(us: seq<User>, key: ProfileKey, v: JsValue): (i: nat)
    reads us
    ensures i <= |us|
    ensures forall j :: 0 <= j < i ==> Field(us[j].profile, key) != v
    ensures i < |us| ==> Field(us[i].profile, key) == v
  {
    if us == [] then 0
    else if Field(us[0].profile, key) == v then 0
    else
      var i := FirstWithField(us[1..], key, v);
      assert forall j :: 1 <= j < i + 1 ==> us[j] == us[1..][j - 1];
      1 + i
  }

  /** The user `find` returns, or None for undefined. */
  function FindWithField(us: seq<User>, key: ProfileKey, v: JsValue): (r: Option<User>)
    reads us
    ensures r.None? <==> forall j :: 0 <= j < |us| ==> Field(us[j].profile, key) != v
    ensures r.Some? ==> r.value in us && Field(r.value.profile, key) == v
  {
    var i := FirstWithField(us, key, v);
    if i < |us| then Some(us[i]) else None
  }

  // ---------------------------------------------------------------------
  // Findings: the lookups read profile.user_id, which no profile has
  // ---------------------------------------------------------------------

  predicate AllIssued(us: seq<User>)
    reads us
  {
    forall i :: 0 <= i < |us| ==> Issued(us[i].profile)
  }

  /**
   * getUserByToken as written: with no profile holding user_id, every
   * decoded token matches the first registered user.
   */
  lemma GetUserByTokenAsWrittenFirst(us: seq<User>, token: Profile)
    requires AllIssued(us) && Issued(token)
    ensures FindWithField(us, SnakeUserId, Field(token, SnakeUserId)) == if us == [] then None else Some(us[0])
  {
    if us != [] {
      assert Issued(us[0].profile);
      assert SnakeUserId !in us[0].profile;
    }
  }

  /**
   * checkUsernameTaken(user) as written: user_id is undefined on both sides,
   * so no user is ever taken by another.
   */
  lemma TakenByOtherAsWrittenNever(us: seq<User>, user: User)
    requires AllIssued(us) && Issued(user.profile)
    ensures Named(us)
    ensures !TakenByOtherAmong(us, user, SnakeUserId)
  {
    forall i | 0 <= i < |us| ensures Field(us[i].profile, Nickname).JsString? && Field(us[i].profile, SnakeUserId) == JsUndefined {
      assert Issued(us[i].profile);
    }
  }

  /**
   * Ids that grow along the registry and stay below the counter, as
   * generateToken hands them out.
   */
  predicate IdsIncreasing(us: seq<User>, next: int)
    reads us
    requires AllIssued(us)
  {
    (forall i :: 0 <= i < |us| ==> 1 <= IdOf(us[i].profile) < next) &&
    (forall i, j :: 0 <= i < j < |us| ==> IdOf(us[i].profile) < IdOf(us[j].profile))
  }

  /** Registering a user under the counter's value keeps the registry numbered in order. */
  lemma AppendIssued(us: seq<User>, next: int, u: User)
    requires AllIssued(us) && IdsIncreasing(us, next) && next >= 1
    requires Issued(u.profile) && IdOf(u.profile) == next
    ensures AllIssued(us + [u]) && IdsIncreasing(us + [u], next + 1)
  {
    var vs := us + [u];
    assert forall i :: 0 <= i < |us| ==> vs[i] == us[i];
    assert vs[|us|] == u;
  }

  /** getUserByToken on the field generateToken does set: the token's own user. */
  lemma GetUserByIdFindsOwner(us: seq<User>, next: int, k: nat)
    requires AllIssued(us) && IdsIncreasing(us, next) && k < |us|
    ensures FindWithField(us, UserId, Field(us[k].profile, UserId)) == Some(us[k])
  {
    var v := Field(us[k].profile, UserId);
    var i := FirstWithField(us, UserId, v);
    assert i == k;
  }

  /** The corrected checkUsernameTaken(user) on a registered user: another online user with its nickname. */
  lemma TakenByOtherFindsNamesake(us: seq<User>, next: int, k: nat, j: nat)
    requires AllIssued(us) && IdsIncreasing(us, next) && k < |us| && j < |us| && j != k
    requires OnlineAs(us[j], Lower(Field(us[k].profile, Nickname).s))
    ensures Named(us)
    ensures TakenByOtherAmong(us, us[k], UserId)
  {
    forall i | 0 <= i < |us| ensures Field(us[i].profile, Nickname).JsString? {
      assert Issued(us[i].profile);
    }
    if j < k {
      assert IdOf(us[j].profile) < IdOf(us[k].profile);
    } else {
      assert IdOf(us[k].profile) < IdOf(us[j].profile);
    }
  }

  // ---------------------------------------------------------------------
  // rateNickname and the POST handler's checks
  // ---------------------------------------------------------------------

  datatype Rating = NotString | BadLength | Taken | Available

  const NoPasswordSet := "There isn't any password set."
  const NicknameNotString := "Nickname is not a string."
  const BadNickname := "Bad nickname. It must be longer than 3 characters and shorter than 20."
  const InvalidPassword := "Invalid password."
  const UsernameTaken := "This username is taken."

  datatype LoginResult = Refused(message: string) | Granted

  /**
   * The login branch's checks, in order: a password must be set, the
   * nickname must be a string of the right length, the password must have
   * 5 to 100 characters, the nickname must be free, and the password's hash
   * must equal the stored one.
   */
  function LoginCheck(storedHash: string, rating: Rating, password: string, hashed: string): (r: LoginResult)
    ensures r.Granted? <==>
      storedHash != "" && rating.Available? &&
      MinLoginPassLength <= |password| <= MaxPassLength && hashed == storedHash
    ensures storedHash == "" ==> r == Refused(NoPasswordSet)
    ensures storedHash != "" && rating == NotString ==> r == Refused(NicknameNotString)
    ensures storedHash != "" && rating == BadLength ==> r == Refused(BadNickname)
    ensures storedHash != "" && (rating == Taken || rating == Available) && !(MinLoginPassLength <= |password| <= MaxPassLength) ==>
      r == Refused(InvalidPassword)
    ensures storedHash != "" && rating == Taken && MinLoginPassLength <= |password| <= MaxPassLength ==>
      r == Refused(UsernameTaken)
  {
    if storedHash == "" then Refused(NoPasswordSet)
    else if rating == NotString then Refused(NicknameNotString)
    else if rating == BadLength then Refused(BadNickname)
    else if |password| > MaxPassLength || |password| < MinLoginPassLength then Refused(InvalidPassword)
    else if rating == Taken then Refused(UsernameTaken)
    else if hashed == storedHash then Granted
    else Refused(InvalidPassword)
  }

  const PasswordAlreadySet := "There is already a password set. Refresh this page."
  const PasswordBadLength := "The password must have 6 to 100 characters."
  const PasswordSet := "Password set successfully."

  datatype PasswordReply = PasswordReply(success: bool, message: string)

  /**
   * The new-password branch on the stored hash: the reply and the hash
   * afterwards. Only the first password is taken, and only with 6 to 100
   * characters.
   */
  function SetPasswordResult(storedHash: string, newPassword: string, hashed: string): (r: (string, PasswordReply))
    ensures r.1.success <==> storedHash == "" && MinPassLength <= |newPassword| <= MaxPassLength
    ensures r.0 == if r.1.success then hashed else storedHash
    ensures storedHash != "" ==> r.1.message == PasswordAlreadySet
    ensures storedHash == "" && !r.1.success ==> r.1.message == PasswordBadLength
    ensures r.1.success ==> r.1.message == PasswordSet
  {
    if storedHash != "" then (storedHash, PasswordReply(false, PasswordAlreadySet))
    else if |newPassword| > MaxPassLength || |newPassword| < MinPassLength then
      (storedHash, PasswordReply(false, PasswordBadLength))
    else (hashed, PasswordReply(true, PasswordSet))
  }

  /** Once a password is set, no later request changes it. */
  lemma {:induction false} PasswordSetOnce(storedHash: string, attempts: seq<(string, string)>)
    requires storedHash != ""
    ensures ReplayPasswords(storedHash, attempts) == storedHash
    decreases attempts
  {
    if attempts != [] {
      var next := SetPasswordResult(storedHash, attempts[0].0, attempts[0].1).0;
      assert next == storedHash;
      PasswordSetOnce(next, attempts[1..]);
    }
  }

  /** The stored hash after a series of new-password requests (each with its own hash). */
  function ReplayPasswords(storedHash: string, attempts: seq<(string, string)>): string
    decreases attempts
  {
    if attempts == [] then storedHash
    else ReplayPasswords(SetPasswordResult(storedHash, attempts[0].0, attempts[0].1).0, attempts[1..])
  }

  /** Once set, the password opens the panel with any free nickname of the right length. */
  lemma SetThenLogin(newPassword: string, hashed: string)
    requires hashed != "" && MinPassLength <= |newPassword| <= MaxPassLength
    ensures SetPasswordResult("", newPassword, hashed).0 == hashed
    ensures LoginCheck(SetPasswordResult("", newPassword, hashed).0, Available, newPassword, hashed) == Granted
  {
  }

  // ---------------------------------------------------------------------
  // load_password
  // ---------------------------------------------------------------------

  /**
   * load_password as written: readFile is asynchronous, so the local hash is
   * returned before the callback assigns the file's text to it.
   */
  function LoadPasswordAsWritten(file: Dict.ReadResult): string
  {
    ""
  }

  /**
   * load_password with the file read before it returns: its text, or '' when
   * it could not be read (a missing file is then created blank).
   */
  function LoadPassword(file: Dict.ReadResult): string
  {
    if file.Read? then file.text else ""
  }

  /**
   * As written, after every start the first new password of the right length
   * is taken, whatever hash the password file holds.
   */
  lemma RestartReopensPassword(file: Dict.ReadResult, newPassword: string, hashed: string)
    requires MinPassLength <= |newPassword| <= MaxPassLength
    ensures SetPasswordResult(LoadPasswordAsWritten(file), newPassword, hashed) == (hashed, PasswordReply(true, PasswordSet))
  {
  }

  /** With the file read first, a stored hash survives every later new-password request. */
  lemma StoredPasswordSurvivesRestart(text: string, attempts: seq<(string, string)>)
    requires text != ""
    ensures LoadPassword(Dict.Read(text)) == text
    ensures ReplayPasswords(LoadPassword(Dict.Read(text)), attempts) == text
  {
    PasswordSetOnce(text, attempts);
  }

  // ---------------------------------------------------------------------
  // submit_magic_word
  // ---------------------------------------------------------------------

  const MagicWordTooLong := "Max characters per word is 20."
  const MagicWordTooShort := "Minimum characters per word is 1."
  const MagicWordSet := "Magic word set successfully."
  const MagicWordRude := "That was not a word. How rude of you!"

  datatype MagicWordReply = MagicWordReply(success: bool, message: string)

  /** The response object the handler fills in for data.magic_word. */
  function MagicWordCheck(word: JsValue): (r: MagicWordReply)
    ensures r.success <==> word.JsString? && MinMagicWordLength <= |word.s| <= MaxMagicWordLength
    ensures !word.JsString? ==> r.message == MagicWordRude
    ensures word.JsString? && |word.s| > MaxMagicWordLength ==> r.message == MagicWordTooLong
    ensures word.JsString? && |word.s| < MinMagicWordLength ==> r.message == MagicWordTooShort
    ensures r.success ==> r.message == MagicWordSet
  {
    if !word.JsString? then MagicWordReply(false, MagicWordRude)
    else if |word.s| > MaxMagicWordLength then MagicWordReply(false, MagicWordTooLong)
    else if |word.s| < MinMagicWordLength then MagicWordReply(false, MagicWordTooShort)
    else MagicWordReply(true, MagicWordSet)
  }

  /**
   * The accepted word goes to the chat bot as set_option('magicWords', ...):
   * the key is not one set_option knows, so as written it throws on the
   * `settings` typo, and even with that corrected nothing is stored.
   */
  lemma MagicWordNeverStored(c: Legacy.Conf, word: JsValue)
    ensures Legacy.KeyOf("magicWords") == Legacy.Other("magicWords")
    ensures Legacy.SetOptionAsWritten(c, Legacy.KeyOf("magicWords"), word) == Err(Legacy.UndefinedSettings)
    ensures Legacy.SetOptionResult(c, Legacy.KeyOf("magicWords"), word) == Ok(c)
  {
    assert Legacy.Name(Legacy.KeyOf("magicWords")) == "magicWords";
  }

  /**
   * submit_magic_word: the response emitted, if any. An accepted word is
   * passed to set_option, which throws before the response goes out, so
   * only refusals are ever emitted.
   */
  function SubmitMagicWord(c: Legacy.Conf, word: JsValue): (r: Option<MagicWordReply>)
    ensures r.None? <==> MagicWordCheck(word).success
    ensures r.Some? ==> r.value == MagicWordCheck(word) && !r.value.success
  {
    var reply := MagicWordCheck(word);
    MagicWordNeverStored(c, word);
    if reply.success && Legacy.SetOptionAsWritten(c, Legacy.KeyOf("magicWords"), word).Err? then None
    else Some(reply)
  }

  // ---------------------------------------------------------------------
  // The server's state
  // ---------------------------------------------------------------------

  /** The POST / body fields the handler looks at. */
  datatype PostBody = PostBody(newPassword: JsValue, loginInput: JsValue, loginName: JsValue)

  datatype PostReply =
    | PasswordAnswer(reply: PasswordReply)
    | LoginRefused(message: string)
    | LoginGranted(token: Profile)
    | NoAnswer   // neither branch applies: nothing is sent

  class PanelServer {
    var registeredUsers: seq<User>
    var uniqueUserID: int
    var serverPasswordHash: string

    /** The registry holds the users generateToken made, numbered below the counter in order. */
    predicate Valid()
      reads this, registeredUsers
    {
      uniqueUserID >= 1 && AllIssued(registeredUsers) && IdsIncreasing(registeredUsers, uniqueUserID)
    }

    /**
     * The module's initial state once startServer has run, with the hash a
     * synchronous load_password returns for the password file.
     */
    constructor (passwordFile: Dict.ReadResult)
      ensures registeredUsers == [] && uniqueUserID == 1
      ensures serverPasswordHash == LoadPassword(passwordFile)
      ensures passwordFile.Read? ==> serverPasswordHash == passwordFile.text
      ensures passwordFile.Failed? ==> serverPasswordHash == ""
      ensures Valid()
    {
      registeredUsers := [];
      uniqueUserID := 1;
      serverPasswordHash := LoadPassword(passwordFile);
    }

    /** getOnlineUsers. */
    function GetOnlineUsers(): (r: seq<User>)
      reads this, registeredUsers
      ensures forall i :: 0 <= i < |r| ==> r[i] in registeredUsers && r[i].status == Online
      ensures forall i :: 0 <= i < |registeredUsers| && registeredUsers[i].status == Online ==>
        registeredUsers[i] in r
    {
      OnlineAmong(registeredUsers)
    }

    /** checkUsernameTaken(nickname) for a string nickname. */
    function CheckUsernameTaken(nickname: string): (r: bool)
      reads this, registeredUsers
      requires Valid()
      ensures r <==> exists i :: 0 <= i < |registeredUsers| && OnlineAs(registeredUsers[i], Lower(nickname))
    {
      assert Named(registeredUsers) by {
        forall i | 0 <= i < |registeredUsers| ensures Field(registeredUsers[i].profile, Nickname).JsString? {
          assert Issued(registeredUsers[i].profile);
        }
      }
      TakenAmong(registeredUsers, Lower(nickname))
    }

    /** rateNickname(nickname). */
    function RateNickname(nickname: JsValue): (r: Rating)
      reads this, registeredUsers
      requires Valid()
      ensures r == Taken <==> (nickname.JsString? &&
        MinNickLength <= |nickname.s| <= MaxNickLength && CheckUsernameTaken(nickname.s))
      ensures r == Available <==> (nickname.JsString? &&
        MinNickLength <= |nickname.s| <= MaxNickLength && !CheckUsernameTaken(nickname.s))
      ensures r == NotString <==> !nickname.JsString?
      ensures r == BadLength <==> (nickname.JsString? && !(MinNickLength <= |nickname.s| <= MaxNickLength))
    {
      if !nickname.JsString? then NotString
      else if |nickname.s| > MaxNickLength || |nickname.s| < MinNickLength then BadLength
      else if CheckUsernameTaken(nickname.s) then Taken
      else Available
    }

    /** generateToken(nick, ipAddress): the signed payload; signing itself is not modelled. */
    method GenerateToken(nick: string, ipAddress: string) returns (token: Profile)
      requires Valid()
      modifies this`registeredUsers, this`uniqueUserID
      ensures Valid()
      ensures token == TokenProfile(nick, ipAddress, old(uniqueUserID))
      ensures uniqueUserID == old(uniqueUserID) + 1
      ensures |registeredUsers| == |old(registeredUsers)| + 1
      ensures registeredUsers[..|old(registeredUsers)|] == old(registeredUsers)
      ensures fresh(registeredUsers[|old(registeredUsers)|])
      ensures registeredUsers[|old(registeredUsers)|].profile == token
      ensures registeredUsers[|old(registeredUsers)|].status == Offline
    {
      token := TokenProfile(nick, ipAddress, uniqueUserID);
      TokenProfileIssued(nick, ipAddress, uniqueUserID);
      var user := new User(token);
      AppendIssued(registeredUsers, uniqueUserID, user);
      assert (registeredUsers + [user])[..|registeredUsers|] == registeredUsers;
      registeredUsers := registeredUsers + [user];
      uniqueUserID := uniqueUserID + 1;
    }

    /** getUserByToken(decoded_token) as written: it matches profiles on user_id. */
    function GetUserByTokenAsWritten(decodedToken: Profile): (r: Option<User>)
      reads this, registeredUsers
      ensures r.Some? ==> r.value in registeredUsers
      ensures Valid() && Issued(decodedToken) ==>
        r == if registeredUsers == [] then None else Some(registeredUsers[0])
    {
      var r := FindWithField(registeredUsers, SnakeUserId, Field(decodedToken, SnakeUserId));
      assert Valid() && Issued(decodedToken) ==>
          r == if registeredUsers == [] then None else Some(registeredUsers[0]) by {
        if Valid() && Issued(decodedToken) {
          GetUserByTokenAsWrittenFirst(registeredUsers, decodedToken);
        }
      }
      r
    }

    /** getUserByToken(decoded_token) on the userId that generateToken sets. */
    function GetUserByToken(decodedToken: Profile): (r: Option<User>)
      reads this, registeredUsers
      ensures r.None? <==> forall i :: 0 <= i < |registeredUsers| ==>
        Field(registeredUsers[i].profile, UserId) != Field(decodedToken, UserId)
      ensures r.Some? ==> r.value in registeredUsers && Field(r.value.profile, UserId) == Field(decodedToken, UserId)
    {
      FindWithField(registeredUsers, UserId, Field(decodedToken, UserId))
    }

    /** The new-password branch of POST /, with hashed standing for the password's SHA-256 digest. */
    method SetPassword(newPassword: string, hashed: string) returns (reply: PasswordReply)
      modifies this`serverPasswordHash
      ensures (serverPasswordHash, reply) == SetPasswordResult(old(serverPasswordHash), newPassword, hashed)
    {
      var success := false;
      var message := "An error occurred.";
      if serverPasswordHash != "" {
        message := PasswordAlreadySet;
      } else if |newPassword| > MaxPassLength || |newPassword| < MinPassLength {
        message := PasswordBadLength;
      } else {
        message := PasswordSet;
        success := true;
      }
      if success {
        serverPasswordHash := hashed;
      }
      reply := PasswordReply(success, message);
    }

    /**
     * The login branch of POST /, with hashed standing for the digest of
     * password: a token is issued, and a user registered, only when every
     * check passes.
     */
    method Login(password: string, nickname: string, ipAddress: string, hashed: string) returns (reply: PostReply)
      requires Valid()
      modifies this`registeredUsers, this`uniqueUserID
      ensures Valid()
      ensures var check := LoginCheck(old(serverPasswordHash), old(RateNickname(JsString(nickname))), password, hashed);
        if check.Granted? then
          reply == LoginGranted(TokenProfile(nickname, ipAddress, old(uniqueUserID))) &&
          uniqueUserID == old(uniqueUserID) + 1 &&
          |registeredUsers| == |old(registeredUsers)| + 1 &&
          registeredUsers[..|old(registeredUsers)|] == old(registeredUsers)
        else
          reply == LoginRefused(check.message) &&
          registeredUsers == old(registeredUsers) && uniqueUserID == old(uniqueUserID)
    {
      var rating := RateNickname(JsString(nickname));
      var check := LoginCheck(serverPasswordHash, rating, password, hashed);
      if check.Granted? {
        var token := GenerateToken(nickname, ipAddress);
        reply := LoginGranted(token);
      } else {
        reply := LoginRefused(check.message);
      }
    }

    /** POST /: which branch the body selects. */
    method Post(body: PostBody, ipAddress: string, hashed: string) returns (reply: PostReply)
      requires Valid()
      modifies this`registeredUsers, this`uniqueUserID, this`serverPasswordHash
      ensures Valid()
      ensures body.newPassword.JsString? ==> (reply.PasswordAnswer? &&
        (serverPasswordHash, reply.reply) == SetPasswordResult(old(serverPasswordHash), body.newPassword.s, hashed))
      ensures body.newPassword.JsString? ==>
        registeredUsers == old(registeredUsers) && uniqueUserID == old(uniqueUserID)
      ensures !body.newPassword.JsString? ==> serverPasswordHash == old(serverPasswordHash)
      ensures !body.newPassword.JsString? && !(body.loginInput.JsString? && body.loginName.JsString?) ==>
        reply == NoAnswer && registeredUsers == old(registeredUsers) && uniqueUserID == old(uniqueUserID)
      ensures !body.newPassword.JsString? && body.loginInput.JsString? && body.loginName.JsString? ==>
        var check := LoginCheck(old(serverPasswordHash), old(RateNickname(body.loginName)), body.loginInput.s, hashed);
        if check.Granted? then
          reply == LoginGranted(TokenProfile(body.loginName.s, ipAddress, old(uniqueUserID))) &&
          uniqueUserID == old(uniqueUserID) + 1 &&
          |registeredUsers| == |old(registeredUsers)| + 1 &&
          registeredUsers[..|old(registeredUsers)|] == old(registeredUsers)
        else
          reply == LoginRefused(check.message) &&
          registeredUsers == old(registeredUsers) && uniqueUserID == old(uniqueUserID)
    {
      if body.newPassword.JsString? {
        var r := SetPassword(body.newPassword.s, hashed);
        reply := PasswordAnswer(r);
      } else if body.loginInput.JsString? && body.loginName.JsString? {
        reply := Login(body.loginInput.s, body.loginName.s, ipAddress, hashed);
      } else {
        reply := NoAnswer;
      }
    }
  }
}
