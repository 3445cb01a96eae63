/** The name shown in the account menu of src/components/UserDropdown.tsx and the initial in its
    avatar. `toUpperCase` is a parameter. */
module UserMenu {
  import opened Text

  /** The parts of the signed-in user the menu reads: `user_metadata.full_name` and `email`. */
  datatype User = User(fullName: Option<string>, email: Option<string>)

  /** `user?.user_metadata?.full_name || user?.email?.split("@")[0] || "User"`. */
  function DisplayName(user: Option<User>): string {
    if user.Some? && user.value.fullName.Some? && user.value.fullName.value != ""
    then user.value.fullName.value
    else if user.Some? && user.value.email.Some? && BeforeFirst(user.value.email.value, '@') != ""
    then BeforeFirst(user.value.email.value, '@')
    else "User"
  }

  /** The fallback chain: a non-empty full name wins; otherwise the non-empty part of the email
      before its first '@', which holds no '@' and starts the email; otherwise "User". The name
      is never empty. */
  lemma DisplayNameSpec(user: Option<User>)
    ensures DisplayName(user) != ""
    ensures user.Some? && user.value.fullName.Some? && user.value.fullName.value != "" ==>
              DisplayName(user) == user.value.fullName.value
    ensures !(user.Some? && user.value.fullName.Some? && user.value.fullName.value != "")
            && user.Some? && user.value.email.Some? && BeforeFirst(user.value.email.value, '@') != "" ==>
              && DisplayName(user) == BeforeFirst(user.value.email.value, '@')
              && '@' !in DisplayName(user)
              && StartsWith(user.value.email.value, DisplayName(user))
    ensures user.None? ==> DisplayName(user) == "User"
  {
    if user.Some? && user.value.email.Some? {
      BeforeFirstSpec(user.value.email.value, '@');
    }
  }

  /** `displayName.charAt(0).toUpperCase()`. */
  function Initial(user: Option<User>, upper: string -> string): string {
    var name := DisplayName(user);
    upper(if name != "" then name[..1] else "")
  }

  /** The initial is the upper-cased first character of the shown name, which always has one. */
  lemma InitialSpec(user: Option<User>, upper: string -> string)
    ensures Initial(user, upper) == upper([DisplayName(user)[0]])
  {
    DisplayNameSpec(user);
    assert DisplayName(user)[..1] == [DisplayName(user)[0]];
  }
}
