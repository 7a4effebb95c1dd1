/**
 * The panel's User record: the decoded token it was made from, kept as its
 * profile, and a status that the socket handlers switch between 'offline'
 * and 'online'.
 */
module Users {
  import opened JsCore

  /** The keys a profile object can hold; Other covers every other name. */
  datatype ProfileKey = Nickname | IpAddress | UserId | Other(name: string)

  /** A token's payload as an object: reading an absent key gives undefined. */
  type Profile = map<ProfileKey, JsValue>

  function Field(p: Profile, k: ProfileKey): JsValue
  {
    if k in p then p[k] else JsUndefined
  }

  const Offline := "offline"
  const Online := "online"

  class User {
    var profile: Profile
    var status: string

    /** new User(decoded_token): the token itself becomes the profile; the user starts offline. */
    constructor (decodedToken: Profile)
      ensures profile == decodedToken
      ensures status == Offline
    {
      profile := decodedToken;
      status := Offline;
    }

    /** setStatus(status): the new status, the profile untouched. */
    method SetStatus(s: string)
      modifies this`status
      ensures status == s
      ensures profile == old(profile)
    {
      status := s;
    }
  }
}
