/** The account URL (`buildAccountUrl`), the REST URLs built on it (`vsoUrl`, in its
    current and legacy forms) and the `api-version` chosen per REST resource
    (`getVsoResourceVersion`). */
module Urls {
  import opened Wrappers
  import opened Strings
  import opened JsonValues

  const HttpScheme: string := "http://"
  const HttpsScheme: string := "https://"
  const CollectionSuffix: string := "/DefaultCollection"
  const ApisMarker: string := "/_apis/"
  const DefaultApiVersion: string := "1.0"
  /** `VSO_API_VERSION`: the one version the legacy app sends on every request. */
  const LegacyApiVersion: string := "1.0-preview"

  /** `VSO_API_RESOURCE_VERSION`: no resource overrides the default version. */
  const ResourceVersions: map<string, string> := map[]

  /** `helpers.fmt(VSO_URL_FORMAT, setting)`: the hosted-account URL of a bare name. */
  function HostedUrl(account: string): (r: string)
    ensures StartsWith(r, HttpsScheme)
    ensures EndsWith(r, CollectionSuffix)
  {
    HttpsScheme + account + ".visualstudio.com" + CollectionSuffix
  }

  /** The setting already names a server: it starts with `http://` or `https://`,
      compared case-insensitively. */
  predicate HasScheme(setting: string) {
    StartsWith(Lower(setting), HttpScheme) || StartsWith(Lower(setting), HttpsScheme)
  }

  /** `s[s.length - 1] === "/" ? s.slice(0, -1) : s`: at most one slash goes. */
  function DropTrailingSlash(s: string): (r: string)
    ensures |s| > 0 && s[|s| - 1] == '/' ==> s == r + "/"
    ensures !(|s| > 0 && s[|s| - 1] == '/') ==> r == s
  {
    if |s| > 0 && s[|s| - 1] == '/' then s[..|s| - 1] else s
  }

  /** The base URL before the collection check: the setting itself when it has a
      scheme, otherwise the hosted URL of the name, less one trailing slash. */
  function AccountBase(setting: string): string {
    DropTrailingSlash(if HasScheme(setting) then setting else HostedUrl(setting))
  }

  /** `buildAccountUrl`: `/DefaultCollection` is added when the last slash of the base
      sits at index 8 (`"https://".length`) or earlier. That covers every base without
      a path, and also short ones with a path, such as `http://a/b`. */
  function BuildAccountUrl(setting: string): (r: string)
    ensures StartsWith(r, AccountBase(setting))
    ensures LastIndexOf(AccountBase(setting), '/') <= |HttpsScheme| ==>
              r == AccountBase(setting) + CollectionSuffix
    ensures LastIndexOf(AccountBase(setting), '/') > |HttpsScheme| ==> r == AccountBase(setting)
  {
    var base := AccountBase(setting);
    if LastIndexOf(base, '/') <= |HttpsScheme| then base + CollectionSuffix else base
  }

  /** Any occurrence of `c` is at or before its last occurrence. */
  lemma LastIndexOfBound(s: string, c: char, i: nat)
    requires i < |s| && s[i] == c
    ensures LastIndexOf(s, c) >= i
  {
  }

  lemma SchemeLower(scheme: string, rest: string)
    requires scheme == HttpScheme || scheme == HttpsScheme
    ensures HasScheme(scheme + rest)
  {
    LowerAppend(scheme, rest);
    assert Lower(scheme) == scheme;
    assert Lower(scheme + rest)[..|scheme|] == scheme;
  }

  /** A bare account name gets exactly the hosted URL: the format already ends in
      `/DefaultCollection`, so the collection check adds nothing. */
  lemma {:induction false} BareAccountName(account: string)
    requires !HasScheme(account)
    ensures BuildAccountUrl(account) == HostedUrl(account)
  {
    var u := HostedUrl(account);
    assert u[|u| - 1] == 'n';
    assert AccountBase(account) == u;
    var slash := |HttpsScheme + account + ".visualstudio.com"|;
    assert u[slash] == '/';
    LastIndexOfBound(u, '/', slash);
  }

  /** A server URL with no path after the host gets the default collection, whether or
      not it ends in a slash. */
  lemma {:induction false} HostOnlyGetsCollection(scheme: string, host: string)
    requires scheme == HttpScheme || scheme == HttpsScheme
    requires host != "" && '/' !in host
    ensures BuildAccountUrl(scheme + host) == scheme + host + CollectionSuffix
    ensures BuildAccountUrl(scheme + host + "/") == scheme + host + CollectionSuffix
  {
    var u := scheme + host;
    SchemeLower(scheme, host);
    SchemeLower(scheme, host + "/");
    assert u + "/" == scheme + (host + "/");
    assert u[|u| - 1] == host[|host| - 1];
    assert AccountBase(u) == u;
    assert AccountBase(u + "/") == u;
    LastSlashOfHost(scheme, host);
  }

  lemma LastSlashOfHost(scheme: string, host: string)
    requires scheme == HttpScheme || scheme == HttpsScheme
    requires '/' !in host
    ensures LastIndexOf(scheme + host, '/') == |scheme| - 1
  {
    var u := scheme + host;
    assert u[|scheme| - 1] == '/';
    LastIndexOfBound(u, '/', |scheme| - 1);
    assert forall j :: |scheme| <= j < |u| ==> u[j] == host[j - |scheme|];
  }

  /** A server URL that names a collection path is kept as given, provided scheme and
      host together are longer than `"https://"`: the check counts from that length
      whatever the scheme. */
  lemma {:induction false} CollectionPathKept(scheme: string, host: string, path: string)
    requires scheme == HttpScheme || scheme == HttpsScheme
    requires '/' !in host && |scheme| + |host| > |HttpsScheme|
    requires |path| > 0 && path[|path| - 1] != '/'
    ensures BuildAccountUrl(scheme + host + "/" + path) == scheme + host + "/" + path
  {
    var u := scheme + host + "/" + path;
    SchemeLower(scheme, host + "/" + path);
    assert scheme + (host + "/" + path) == u;
    assert u[|u| - 1] == path[|path| - 1];
    assert AccountBase(u) == u;
    assert u[|scheme| + |host|] == '/';
    LastIndexOfBound(u, '/', |scheme| + |host|);
  }

  /** `url[0] === "/" ? url.slice(1) : url`. */
  function DropLeadingSlash(url: string): (r: string)
    ensures |url| > 0 && url[0] == '/' ==> url == "/" + r
    ensures !(|url| > 0 && url[0] == '/') ==> r == url
  {
    if |url| > 0 && url[0] == '/' then url[1..] else url
  }

  /** How `[key, value].join("=")` renders a value: `null` becomes the empty string. */
  function ParamText(v: Json): string {
    if v.JNull? then "" else JsString(v)
  }

  function Param(p: (string, Json)): string {
    p.0 + "=" + ParamText(p.1)
  }

  function Params(ps: seq<(string, Json)>): (r: seq<string>)
    ensures |r| == |ps|
    ensures forall i :: 0 <= i < |ps| ==> r[i] == Param(ps[i])
  {
    seq(|ps|, i requires 0 <= i < |ps| => Param(ps[i]))
  }

  /** `base + "/" + path`, then `?k=v&...` when a parameter object is given. Any
      object is truthy, so an empty one still adds a bare `?`. */
  function JoinUrl(base: string, url: string, parameters: Option<seq<(string, Json)>>): string {
    var full := base + "/" + DropLeadingSlash(url);
    match parameters
    case None => full
    case Some(ps) => full + "?" + Join(Params(ps), '&')
  }

  /** `vsoUrl(url, parameters)` in the current app: joined onto the stored account
      URL. */
  function VsoUrl(accountUrl: string, url: string, parameters: Option<seq<(string, Json)>>): (r: string)
    ensures StartsWith(r, accountUrl + "/")
    ensures parameters.None? ==> r == accountUrl + "/" + DropLeadingSlash(url)
  {
    JoinUrl(accountUrl, url, parameters)
  }

  /** `vsoUrl(url, parameters)` in the legacy app: the base comes from the setting on
      each call, without the collection check. */
  function LegacyVsoUrl(setting: string, url: string, parameters: Option<seq<(string, Json)>>): (r: string)
    ensures StartsWith(r, AccountBase(setting) + "/")
  {
    JoinUrl(AccountBase(setting), url, parameters)
  }

  /** The two apps build the same URLs whenever the base already names a
      collection path. */
  lemma LegacyAgrees(setting: string, url: string, parameters: Option<seq<(string, Json)>>)
    requires LastIndexOf(AccountBase(setting), '/') > |HttpsScheme|
    ensures LegacyVsoUrl(setting, url, parameters)
         == VsoUrl(BuildAccountUrl(setting), url, parameters)
  {
  }

  lemma {:induction false} JoinExcludes(parts: seq<string>, sep: char, c: char)
    requires c != sep
    requires forall i :: 0 <= i < |parts| ==> c !in parts[i]
    ensures c !in Join(parts, sep)
  {
    if |parts| > 1 {
      JoinExcludes(parts[1..], sep, c);
    }
  }

  /** Neither of the query delimiters occurs in the text. */
  predicate Plain(s: string) {
    '?' !in s && '&' !in s && '=' !in s
  }

  /** Without parameters no query string is added. */
  lemma NoQuery(accountUrl: string, url: string)
    requires '?' !in accountUrl && '?' !in url
    ensures '?' !in VsoUrl(accountUrl, url, None)
  {
  }

  /** Round trip: splitting the URL at `?`, the query at `&` and each parameter at `=`
      gives back the path and every key and value, in order, as long as none of them
      contains a delimiter. */
  lemma {:induction false} QueryRoundTrip(accountUrl: string, url: string, ps: seq<(string, Json)>)
    requires '?' !in accountUrl && '?' !in url
    requires |ps| > 0
    requires forall i :: 0 <= i < |ps| ==> Plain(ps[i].0) && Plain(ParamText(ps[i].1))
    ensures Split(VsoUrl(accountUrl, url, Some(ps)), '?')
         == [accountUrl + "/" + DropLeadingSlash(url), Join(Params(ps), '&')]
    ensures Split(Join(Params(ps), '&'), '&') == Params(ps)
    ensures forall i :: 0 <= i < |ps| ==> Split(Params(ps)[i], '=') == [ps[i].0, ParamText(ps[i].1)]
  {
    var path := accountUrl + "/" + DropLeadingSlash(url);
    var query := Join(Params(ps), '&');
    assert forall i :: 0 <= i < |ps| ==> '?' !in Params(ps)[i] && '&' !in Params(ps)[i];
    JoinExcludes(Params(ps), '&', '?');
    SplitPiece(path, query, '?');
    SplitNoSeparator(query, '?');
    SplitJoin(Params(ps), '&');
    forall i | 0 <= i < |ps|
      ensures Split(Params(ps)[i], '=') == [ps[i].0, ParamText(ps[i].1)]
    {
      SplitPiece(ps[i].0, ParamText(ps[i].1), '=');
      SplitNoSeparator(ParamText(ps[i].1), '=');
      assert Params(ps)[i] == ps[i].0 + ['='] + ParamText(ps[i].1);
    }
  }

  /** The REST resource a URL names: `url.split("/_apis/")[1].split("/")[0]`. The text
      after the first `/_apis/` up to the next slash (a later `/_apis/` starts with a
      slash, so it ends the piece too). A URL without `/_apis/` makes `[1]`
      `undefined`, and reading `.split` of it throws. */
  function ResourceName(url: string): (r: Result<string, string>)
    ensures r.Ok? <==> exists j :: 0 <= j <= |url| && OccursAt(url, ApisMarker, j)
    ensures r.Ok? ==> '/' !in r.value
  {
    var i := IndexOf(url, ApisMarker);
    if i < 0 then Err("TypeError") else Ok(TakeUntil(url[i + |ApisMarker|..], '/'))
  }

  /** `getVsoResourceVersion(url)` against a version table: the resource's own
      version when the table gives a non-empty one, else `"1.0"`. The app passes
      `ResourceVersions`. */
  function ResourceVersion(url: string, table: map<string, string>): (r: Result<string, string>)
    ensures r.Ok? <==> ResourceName(url).Ok?
    ensures r.Ok? ==> r.value != ""
    ensures r.Ok? && ResourceName(url).value !in table ==> r.value == DefaultApiVersion
  {
    match ResourceName(url)
    case Err(e) => Err(e)
    case Ok(resource) =>
      if resource in table && table[resource] != ""
      then Ok(table[resource])
      else Ok(DefaultApiVersion)
  }

  /** A URL `prefix/_apis/resource[/...]` whose prefix holds no underscore names
      `resource`, and every such URL asks for version `"1.0"`. */
  lemma {:induction false} ResourceOfRestUrl(prefix: string, resource: string, rest: string)
    requires '_' !in prefix && '/' !in resource
    requires rest == "" || rest[0] == '/'
    ensures ResourceName(prefix + ApisMarker + resource + rest) == Ok(resource)
    ensures ResourceVersion(prefix + ApisMarker + resource + rest, ResourceVersions) == Ok(DefaultApiVersion)
  {
    var url := prefix + ApisMarker + resource + rest;
    assert OccursAt(url, ApisMarker, |prefix|);
    forall j | 0 <= j < |prefix|
      ensures !OccursAt(url, ApisMarker, j)
    {
      assert url[j + 1] != '_' by {
        if j + 1 < |prefix| {
          assert url[j + 1] == prefix[j + 1];
        } else {
          assert url[j + 1] == ApisMarker[0];
        }
      }
      assert url[j..j + |ApisMarker|][1] != ApisMarker[1];
    }
    var i := IndexOf(url, ApisMarker);
    assert i == |prefix|;
    var after := url[i + |ApisMarker|..];
    assert after == resource + rest;
    assert forall k :: 0 <= k < |resource| ==> after[k] == resource[k] && after[k] != '/';
    assert |rest| > 0 ==> after[|resource|] == '/';
    var t := TakeUntil(after, '/');
    assert t == after[..|t|];
    assert t == resource;
  }
}
