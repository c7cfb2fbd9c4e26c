/** Profile selection: `load_profiles` fills the selector and may switch the current
    profile; `on_profile_change` activates the selected one. */
module Profiles {
  import opened Wrappers

  /** The selector's list, the current profile, and whether `on_profile_change` is
      called for it. */
  datatype Selection = Selection(values: seq<string>, current: string, switched: bool)

  /** `load_profiles`. `listing` is what `get_all_profiles` returned (`None` when it
      raised, which leaves the selector alone). */
  function LoadProfiles(listing: Option<seq<string>>, values: seq<string>, current: string): (r: Selection)
    ensures listing.None? ==> r == Selection(values, current, false)
    ensures listing.Some? ==> r.values == listing.value
    ensures listing.Some? && |listing.value| > 0 ==> r.current in listing.value
    ensures listing.Some? && listing.value == [] ==> r.current == "" && !r.switched
    ensures r.switched <==> listing.Some? && |listing.value| > 0 && (current == "" || current !in listing.value)
    ensures !r.switched && listing.Some? && |listing.value| > 0 ==> r.current == current
    ensures r.switched ==> r.current == listing.value[0]
  {
    match listing
    case None => Selection(values, current, false)
    case Some(profiles) =>
      if |profiles| > 0 then
        if current == "" || current !in profiles then Selection(profiles, profiles[0], true)
        else Selection(profiles, current, false)
      else Selection([], "", false)
  }

  /** The answer of activating a profile: success, a refusal with its message, or an
      exception, raised either by `copy_profile_to_current_env` or by
      `get_profile_info` after a successful copy; both end in the same handler. */
  datatype Activation = Activated | Refused(message: string) | Raised(message: string)

  /** What `on_profile_change` does after the copy: nothing, a status refresh, or an
      error dialog with the given text. */
  datatype Effect = NoEffect | Refresh | ShowError(text: string)

  const ErrorPrefix: string := "프로필 변경 중 오류가 발생했습니다: "

  /** `on_profile_change`: an empty selection is ignored; otherwise the profile is
      copied into `.env`, and the status is refreshed only when that succeeded. */
  function OnProfileChange(selected: string, activation: Activation): (e: Effect)
    ensures e == Refresh <==> selected != "" && activation == Activated
    ensures e == NoEffect <==> selected == ""
    ensures selected != "" && activation.Refused? ==> e == ShowError(activation.message)
    ensures selected != "" && activation.Raised? ==> e == ShowError(ErrorPrefix + activation.message)
  {
    if selected == "" then NoEffect
    else
      match activation
      case Activated => Refresh
      case Refused(message) => ShowError(message)
      case Raised(message) => ShowError(ErrorPrefix + message)
  }

  /** Loading then, if the selection was switched, activating the new current profile. */
  function Reload(listing: Option<seq<string>>, values: seq<string>, current: string, activation: Activation): (Selection, Effect) {
    var r := LoadProfiles(listing, values, current);
    (r, if r.switched then OnProfileChange(r.current, activation) else NoEffect)
  }

  /** A reload refreshes the status only after activating a listed profile that was
      not already selected; a still-listed selection is kept without any activation. */
  lemma ReloadActivatesOnlyListed(listing: Option<seq<string>>, values: seq<string>, current: string, activation: Activation)
    ensures Reload(listing, values, current, activation).1 == Refresh ==>
      && listing.Some? && Reload(listing, values, current, activation).0.current in listing.value
      && (current == "" || current !in listing.value)
      && activation == Activated
    ensures listing.Some? && current != "" && current in listing.value ==>
      Reload(listing, values, current, activation) == (Selection(listing.value, current, false), NoEffect)
  {
  }
}
