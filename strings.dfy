/**
 * The client's localised-string table: a mutable map from string keys to
 * texts, and a mode in which the keys themselves are shown instead of texts.
 */
module Strings {

  /** The table the client starts with; a key written twice in it is kept once. */
  const DefaultStrings: map<string, string> := map[
    "login.password" := "Password",
    "login.forgotPassword" := "Forgot password?",
    "login.notSucceeded" := "Invalid user name or password",
    "validation.validationError" := "There was a problem with validation",
    "login.lockedOut" := "Your account has been locked for 5 minutes due to too many failed login attempts. Please reset your password or try again later.",
    "user.verifyEmail.setPassword" := "Please set your password",
    "user.verifyEmail.welcome" := "Welcome to Nyss",
    "user.verifyEmail.signIn" := "Log in",
    "user.verifyEmail.password" := "Password",
    "user.verifyEmail.failed" := "Could not verify email address",
    "user.verifyEmail.addPassword.failed" := "There was a problem with creating password",
    "user.verifyEmail.addPassword.success" := "Password has been created",
    "user.registration.passwordTooWeak" := "Password is too weak",
    "user.resetPassword.success" := "Password has been reset, please check your email",
    "user.resetPassword.failed" := "Password reset failed",
    "user.resetPassword.enterEmail" := "Please enter your email address",
    "user.resetPassword.emailAddress" := "Email address",
    "user.resetPassword.submit" := "Reset my password",
    "user.resetPassword.enterNewPassword" := "Please set your new password",
    "user.resetPassword.notFound" := "The user was not found",
    "shared.error" := "There was a problem with executing this operation",
    "smsGateway.type.smseagle" := "Sms Eagle",
    "healthRisk.type.human" := "Human",
    "healthRisk.type.nonhuman" := "Non-human",
    "healthRisk.type.unusualevent" := "Unusual event",
    "healthRisk.type.activity" := "Activity"
  ]

  /** The text shown for `key`: the key itself when it has no text or keys are shown. */
  function Resolve(stringList: map<string, string>, showKeys: bool, key: string): string
  {
    if key !in stringList || showKeys then key else stringList[key]
  }

  /** Lookup: the stored text exactly when keys are hidden and the key has a text; otherwise the key. */
  lemma ResolveMeaning(stringList: map<string, string>, showKeys: bool, key: string)
    ensures !showKeys && key in stringList ==> Resolve(stringList, showKeys, key) == stringList[key]
    ensures showKeys || key !in stringList ==> Resolve(stringList, showKeys, key) == key
  {
  }

  /**
   * Lookup after a merge: a key the merge supplies resolves to the merged
   * text, every other key resolves as before.
   */
  lemma ResolveAfterMerge(stringList: map<string, string>, m: map<string, string>, key: string)
    ensures key in m ==> Resolve(stringList + m, false, key) == m[key]
    ensures key !in m ==> Resolve(stringList + m, false, key) == Resolve(stringList, false, key)
  {
  }

  /** Merging the same entries twice changes nothing more than merging them once. */
  lemma MergeIdempotent(stringList: map<string, string>, m: map<string, string>)
    ensures stringList + m + m == stringList + m
  {
  }

  /** A key with no text, such as the sign-in label, is shown as the key itself. */
  lemma DefaultLookups()
    ensures Resolve(DefaultStrings, false, "login.password") == "Password"
    ensures Resolve(DefaultStrings, false, "login.signIn") == "login.signIn"
    ensures Resolve(DefaultStrings, true, "login.password") == "login.password"
  {
    assert "login.signIn" !in DefaultStrings;
  }

  /** The module's state: the table and the show-keys mode. */
  class StringTable {
    var stringList: map<string, string>
    var showKeys: bool

    constructor ()
      ensures stringList == DefaultStrings && !showKeys
    {
      stringList := DefaultStrings;
      showKeys := false;
    }

    /** `strings(key)`: reads the state and changes nothing. */
    function Strings(key: string): (text: string)
      reads this
      ensures !showKeys && key in stringList ==> text == stringList[key]
      ensures showKeys || key !in stringList ==> text == key
    {
      Resolve(stringList, showKeys, key)
    }

    /** `areStringKeysDisplayed()`: the current mode. */
    function AreStringKeysDisplayed(): (shown: bool)
      reads this
      ensures shown <==> showKeys
    {
      showKeys
    }

    /** `updateStrings(m)`: every key of `m` takes its text from `m`; every other entry stays. */
    method UpdateStrings(m: map<string, string>)
      modifies this`stringList
      ensures stringList == old(stringList) + m
      ensures forall k :: k in m ==> k in stringList && stringList[k] == m[k]
      ensures forall k :: k !in m ==> (k in stringList <==> k in old(stringList))
      ensures forall k :: k !in m && k in old(stringList) ==> stringList[k] == old(stringList)[k]
      ensures !showKeys ==> forall k :: k in m ==> Strings(k) == m[k]
    {
      stringList := stringList + m;
    }

    /** `toggleStringsMode()`: flips the mode; the table is untouched. */
    method ToggleStringsMode()
      modifies this`showKeys
      ensures showKeys == !old(showKeys)
      ensures forall k :: Strings(k) == (if showKeys then k else Resolve(stringList, false, k))
    {
      showKeys := !showKeys;
    }
  }

  /** Toggling twice restores the mode and leaves the table and every lookup as they were. */
  method ToggleTwice(t: StringTable, key: string) returns (before: string, after: string)
    modifies t
    ensures before == after
    ensures t.showKeys == old(t.showKeys) && t.stringList == old(t.stringList)
  {
    before := t.Strings(key);
    t.ToggleStringsMode();
    t.ToggleStringsMode();
    after := t.Strings(key);
  }
}
