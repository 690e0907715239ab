/**
 * The frontend's `lib/api.ts`: the API base URL, the origin images are
 * served from, and `getImageUrl`, which turns a stored image URL into one
 * the browser can load.
 */
module FrontendApi {
  import opened Wrappers
  import opened Text
  import opened Upload

  const DefaultApiUrl := "http://localhost:3001/api"
  const ApiSuffix := "/api"

  /** `process.env.NEXT_PUBLIC_API_URL || default`: an unset or empty variable gives the default. */
  function ApiUrl(env: Option<string>): (url: string)
    ensures url != ""
    ensures env.Some? && env.value != "" ==> url == env.value
  {
    if env.Some? && env.value != "" then env.value else DefaultApiUrl
  }

  /** `API_URL.replace('/api', '')` as written: the FIRST "/api" is removed, wherever it is. */
  function BaseUrlAsWritten(api: string): (base: string)
    ensures !Contains(api, ApiSuffix) ==> base == api
  {
    ReplaceFirst(api, ApiSuffix, "")
  }

  /** The API prefix the backend mounts its routes under, removed from the end of the URL. */
  function BaseUrl(api: string): (base: string)
    ensures EndsWith(api, ApiSuffix) ==> base + ApiSuffix == api
    ensures !EndsWith(api, ApiSuffix) ==> base == api
  {
    if EndsWith(api, ApiSuffix) then api[..|api| - |ApiSuffix|] else api
  }

  /** The corrected base URL undoes appending the API prefix to any origin. */
  lemma BaseUrlOfApiUrl(origin: string)
    ensures BaseUrl(origin + ApiSuffix) == origin
  {
    assert (origin + ApiSuffix)[..|origin|] == origin;
  }

  /** When the only "/api" is the suffix, the two readings agree. */
  lemma {:induction false} BaseUrlAgreesOnPlainOrigin(origin: string)
    requires !Contains(origin + ApiSuffix, ApiSuffix) || IndexOf(origin + ApiSuffix, ApiSuffix) == Some(|origin|)
    ensures BaseUrlAsWritten(origin + ApiSuffix) == BaseUrl(origin + ApiSuffix) == origin
  {
    var api := origin + ApiSuffix;
    assert OccursAt(api, ApiSuffix, |origin|);
    BaseUrlOfApiUrl(origin);
    assert api[..|origin|] + "" + api[|origin| + |ApiSuffix|..] == origin;
  }

  /** The default API URL gives the default backend origin under both readings. */
  lemma DefaultBaseUrl()
    ensures BaseUrl(ApiUrl(None)) == "http://localhost:3001"
    ensures BaseUrlAsWritten(ApiUrl(None)) == "http://localhost:3001"
  {
    var origin := "http://localhost:3001";
    assert DefaultApiUrl == origin + ApiSuffix;
    forall i | 0 <= i < |origin| ensures !OccursAt(DefaultApiUrl, ApiSuffix, i) {
      if DefaultApiUrl[i] != '/' {
        MismatchRulesOut(DefaultApiUrl, ApiSuffix, i, 0);
      } else {
        MismatchRulesOut(DefaultApiUrl, ApiSuffix, i, 1);
      }
    }
    assert DefaultApiUrl[|origin|..|origin| + 4] == ApiSuffix;
    FirstOccurrence(DefaultApiUrl, ApiSuffix, |origin|);
    BaseUrlAgreesOnPlainOrigin(origin);
  }

  /** One differing character rules an occurrence out. */
  lemma MismatchRulesOut(s: string, pat: string, i: int, k: int)
    requires 0 <= i && 0 <= k < |pat| && i + k < |s| && s[i + k] != pat[k]
    ensures !OccursAt(s, pat, i)
  {
    assert i + |pat| <= |s| ==> s[i..i + |pat|][k] == s[i + k];
  }

  /** A host name starting with "api." loses its first '/' and the "api" after it. */
  lemma ApiHostIsMangled()
    ensures BaseUrlAsWritten("https://api.hortti.com/api") == "https:/.hortti.com/api"
    ensures BaseUrl("https://api.hortti.com/api") == "https://api.hortti.com"
  {
    ApiHostAsWritten();
    ApiHostCorrected();
  }

  lemma ApiHostAsWritten()
    ensures BaseUrlAsWritten("https://api.hortti.com/api") == "https:/.hortti.com/api"
  {
    var api := "https://api.hortti.com/api";
    ApiHostFirstOccurrence();
    assert api[..7] == "https:/";
    assert api[11..] == ".hortti.com/api";
    MangledJoin();
  }

  lemma MangledJoin()
    ensures "https:/" + "" + ".hortti.com/api" == "https:/.hortti.com/api"
  {
    var a, b := "https:/", ".hortti.com/api";
    var joined := a + "" + b;
    assert forall k :: 0 <= k < 7 ==> joined[k] == a[k];
    assert forall k :: 7 <= k < 22 ==> joined[k] == b[k - 7];
  }

  lemma ApiHostCorrected()
    ensures BaseUrl("https://api.hortti.com/api") == "https://api.hortti.com"
  {
    var api := "https://api.hortti.com/api";
    assert |api| == 26;
    assert api[22..] == ApiSuffix;
    assert EndsWith(api, ApiSuffix);
    assert api[..22] == "https://api.hortti.com";
  }

  lemma ApiHostFirstOccurrence()
    ensures IndexOf("https://api.hortti.com/api", ApiSuffix) == Some(7)
  {
    var api := "https://api.hortti.com/api";
    assert api[7..11] == ApiSuffix;
    forall i | 0 <= i < 7 ensures !OccursAt(api, ApiSuffix, i) {
      if api[i] != '/' {
        MismatchRulesOut(api, ApiSuffix, i, 0);
      } else {
        MismatchRulesOut(api, ApiSuffix, i, 1);
      }
    }
    FirstOccurrence(api, ApiSuffix, 7);
  }

  predicate IsAbsolute(url: string) {
    StartsWith(url, "http://") || StartsWith(url, "https://")
  }

  /** `getImageUrl`: nothing for a missing or empty URL, absolute URLs as they are, the rest under `base`. */
  function GetImageUrl(base: string, imageUrl: Option<string>): (r: Option<string>)
    ensures r.None? <==> imageUrl.None? || imageUrl.value == ""
    ensures r.Some? && IsAbsolute(imageUrl.value) ==> r.value == imageUrl.value
    ensures r.Some? && !IsAbsolute(imageUrl.value) ==> r.value == base + imageUrl.value
  {
    if imageUrl.None? || imageUrl.value == "" then None
    else if IsAbsolute(imageUrl.value) then imageUrl
    else Some(base + imageUrl.value)
  }

  /** A stored upload's URL is loaded from the backend origin's `/uploads/` path. */
  lemma UploadedImageUrl(origin: string, filename: string)
    ensures GetImageUrl(BaseUrl(origin + ApiSuffix), Some(GetFileUrl(filename)))
         == Some(origin + "/uploads/" + filename)
  {
    BaseUrlOfApiUrl(origin);
    var url := GetFileUrl(filename);
    assert url == "/uploads/" + filename;
    assert !IsAbsolute(url) by {
      assert |url| >= 8 && url[..7][0] == '/' && url[..8][0] == '/';
    }
    assert origin + url == origin + "/uploads/" + filename;
  }

  /** With an absolute base, resolving an already resolved URL changes nothing. */
  lemma GetImageUrlIdempotent(base: string, imageUrl: Option<string>)
    requires IsAbsolute(base)
    ensures GetImageUrl(base, GetImageUrl(base, imageUrl)) == GetImageUrl(base, imageUrl)
  {
    if imageUrl.Some? && imageUrl.value != "" && !IsAbsolute(imageUrl.value) {
      var r := base + imageUrl.value;
      if StartsWith(base, "http://") {
        assert r[..7] == base[..7];
      } else {
        assert r[..8] == base[..8];
      }
    }
  }
}
