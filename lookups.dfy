/** Lookup tables with defaults: notification icons and social-network links. */
module Lookups {
  import opened Wrappers

  /** `CONFIG.emailAddress`. */
  const EmailAddress: string := "indecentoff@gmail.com"

  /** The icon of each notification type. */
  const Icons: map<string, string> := map[
    "success" := "check-circle",
    "error" := "exclamation-circle",
    "warning" := "exclamation-triangle",
    "info" := "info-circle"
  ]

  /** `getNotificationIcon`: the type's icon, "info-circle" for an unknown type. */
  function NotificationIcon(kind: string): (icon: string)
    ensures icon in Icons.Values
    ensures kind in Icons ==> icon == Icons[kind]
    ensures icon == "info-circle" <==> kind != "success" && kind != "error" && kind != "warning"
  {
    if kind in Icons then Icons[kind] else assert Icons["info"] == "info-circle"; "info-circle"
  }

  /** The link of each social network. */
  const SocialUrls: map<string, string> := map[
    "github" := "https://github.com/tu-usuario",
    "linkedin" := "https://linkedin.com/in/tu-perfil",
    "twitter" := "https://twitter.com/tu-usuario",
    "instagram" := "https://instagram.com/tu-usuario",
    "email" := "mailto:" + EmailAddress
  ]

  /** `getSocialUrl`: the platform's link, or nothing (`undefined`) for an unknown platform. */
  function SocialUrl(platform: string): (url: Option<string>)
    ensures url.Some? <==> platform in {"github", "linkedin", "twitter", "instagram", "email"}
    ensures platform == "email" ==> url == Some("mailto:" + EmailAddress)
    ensures url.Some? && platform != "email" ==> |url.value| > 8 && url.value[..8] == "https://"
    ensures platform in SocialUrls ==> url == Some(SocialUrls[platform])
  {
    if platform in SocialUrls then Some(SocialUrls[platform]) else None
  }

  /** What a click on a `.social-link` does. */
  datatype SocialClick =
    | FollowLink        // the browser follows the link as usual
    | OpenWindow(url: string)   // the default is prevented and the url opens in a new window
    | Ignore            // the default is prevented and nothing opens

  /** `handleSocialClick`, given the link's `data-platform` attribute. */
  function HandleSocialClick(platform: Option<string>): (action: SocialClick)
    ensures action.FollowLink? <==> platform.None? || platform.value == ""
    ensures action.OpenWindow? ==> platform.Some? && SocialUrl(platform.value) == Some(action.url)
    ensures action.Ignore? <==> platform.Some? && platform.value != "" && SocialUrl(platform.value).None?
  {
    match platform
    case None => FollowLink
    case Some(p) =>
      if p == "" then FollowLink
      else match SocialUrl(p)
        case Some(url) => OpenWindow(url)
        case None => Ignore
  }
}
