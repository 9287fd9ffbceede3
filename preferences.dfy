/** `UserPreferences`: the DataStore holding the session's user id and the
    language code, as a map from the two keys to typed values. */
module Preferences {
  import opened Wrappers

  datatype PrefKey = UserIdKey | LanguageKey
  datatype PrefValue = LongPref(long: int) | StringPref(str: string)

  /** The language read when none has been saved. */
  const DefaultLanguage := "zh"

  /** `user_id` holds a Long and `language` a String. */
  ghost predicate WellTyped(data: map<PrefKey, PrefValue>) {
    && (UserIdKey in data ==> data[UserIdKey].LongPref?)
    && (LanguageKey in data ==> data[LanguageKey].StringPref?)
  }

  class UserPreferences {
    var data: map<PrefKey, PrefValue>

    ghost predicate Valid()
      reads this
    {
      WellTyped(data)
    }

    /** The `userId` flow: the stored Long, or null when the key is absent. */
    function UserId(): (r: Option<int>)
      reads this
      requires Valid()
      ensures r.Some? <==> UserIdKey in data
      ensures r.Some? ==> data[UserIdKey] == LongPref(r.value)
    {
      if UserIdKey in data then Some(data[UserIdKey].long) else None
    }

    /** The `language` flow: the stored code, or "zh" when none is stored. */
    function Language(): (r: string)
      reads this
      requires Valid()
      ensures LanguageKey in data ==> data[LanguageKey] == StringPref(r)
      ensures LanguageKey !in data ==> r == DefaultLanguage
    {
      if LanguageKey in data then data[LanguageKey].str else DefaultLanguage
    }

    /** A store nothing has been written to: no user id, language "zh". */
    constructor ()
      ensures Valid() && data == map[]
      ensures UserId() == None && Language() == DefaultLanguage
    {
      data := map[];
    }

    /** `saveUserId`. */
    method SaveUserId(userId: int)
      requires Valid()
      modifies this
      ensures Valid() && data == old(data)[UserIdKey := LongPref(userId)]
      ensures UserId() == Some(userId) && Language() == old(Language())
    {
      data := data[UserIdKey := LongPref(userId)];
    }

    /** `clearUserId`: removes the key, so the id reads null again. */
    method ClearUserId()
      requires Valid()
      modifies this
      ensures Valid() && data == old(data) - {UserIdKey}
      ensures UserId() == None && Language() == old(Language())
    {
      data := data - {UserIdKey};
    }

    /** `saveLanguage`: any string is stored as it is. */
    method SaveLanguage(languageCode: string)
      requires Valid()
      modifies this
      ensures Valid() && data == old(data)[LanguageKey := StringPref(languageCode)]
      ensures Language() == languageCode && UserId() == old(UserId())
    {
      data := data[LanguageKey := StringPref(languageCode)];
    }
  }
}
