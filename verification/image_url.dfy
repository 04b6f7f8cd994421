/** `getImageUrl` (src/lib/utils.js): turns a stored profile-image path into the URL the
    static file server answers. The build-time API URL (`VITE_API_URL`) is a parameter;
    None stands for an unset variable. */
module ImageUrl {
  import opened Wrappers
  import opened Json
  import opened Text

  const UploadsPrefix: string := "uploads/"

  const ImageExtensions: seq<string> := ["jpg", "jpeg", "png", "webp", "gif"]

  /** `path.replace(/^\/+/, "")` */
  function StripLeadingSlashes(s: string): (r: string)
    ensures |r| <= |s| && r == s[|s| - |r|..]
    ensures |r| > 0 ==> r[0] != '/'
    ensures forall i :: 0 <= i < |s| - |r| ==> s[i] == '/'
  {
    if |s| > 0 && s[0] == '/' then StripLeadingSlashes(s[1..]) else s
  }

  /** `s.replace(/\/+$/, "")` */
  function StripTrailingSlashes(s: string): (r: string)
    ensures |r| <= |s| && r == s[..|r|]
    ensures |r| > 0 ==> r[|r| - 1] != '/'
    ensures forall i :: |r| <= i < |s| ==> s[i] == '/'
  {
    if |s| > 0 && s[|s| - 1] == '/' then StripTrailingSlashes(s[..|s| - 1]) else s
  }

  /** The cleaned path: leading slashes removed, then `uploads/` put in front unless it
      is already there. */
  function CleanPath(path: string): (r: string)
    ensures StartsWith(r, UploadsPrefix)
    ensures StartsWith(StripLeadingSlashes(path), UploadsPrefix) ==> r == StripLeadingSlashes(path)
    ensures !StartsWith(StripLeadingSlashes(path), UploadsPrefix) ==> r == UploadsPrefix + StripLeadingSlashes(path)
  {
    var clean := StripLeadingSlashes(path);
    if StartsWith(clean, UploadsPrefix) then clean else UploadsPrefix + clean
  }

  /** Cleaning a cleaned path changes nothing. */
  lemma CleanPathIdempotent(path: string)
    ensures CleanPath(CleanPath(path)) == CleanPath(path)
  {
    var c := CleanPath(path);
    assert c[0] == 'u';
    assert StripLeadingSlashes(c) == c;
  }

  /** `/\.(jpg|jpeg|png|webp|gif)$/i.test(path)`: case-insensitive only on ASCII letters,
      since the pattern holds no other letters. */
  predicate HasImageExtension(path: string) {
    exists e :: e in ImageExtensions && EndsWith(Lower(path), "." + e)
  }

  /** The API URL without a trailing `/api/v1` (optionally followed by a slash) and
      without trailing slashes. */
  function StaticBase(apiUrl: string): (r: string)
    ensures |r| <= |apiUrl| && r == apiUrl[..|r|]
    ensures |r| > 0 ==> r[|r| - 1] != '/'
  {
    var noApi :=
      if EndsWith(apiUrl, "/api/v1/") then apiUrl[..|apiUrl| - 8]
      else if EndsWith(apiUrl, "/api/v1") then apiUrl[..|apiUrl| - 7]
      else apiUrl;
    var r := StripTrailingSlashes(noApi);
    assert noApi == apiUrl[..|noApi|];
    r
  }

  /** `getImageUrl(path)`: null (None) for a falsy path or a non-image file, the path
      itself when it starts with "http", otherwise the static URL. Calling `startsWith`
      on a truthy non-string, or `replace` on an unset API URL, throws. */
  function GetImageUrl(path: Val, apiUrl: Option<string>): (r: Eval<Option<string>>)
    ensures !Truthy(path) ==> r == Done(None)
    ensures Truthy(path) && !path.value.JStr? ==> r == Threw
    ensures Truthy(path) && path.value.JStr? && StartsWith(path.value.s, "http") ==> r == Done(Some(path.value.s))
    ensures Truthy(path) && path.value.JStr? && !StartsWith(path.value.s, "http") ==>
      && (!HasImageExtension(CleanPath(path.value.s)) ==> r == Done(None))
      && (HasImageExtension(CleanPath(path.value.s)) && apiUrl.None? ==> r == Threw)
      && (HasImageExtension(CleanPath(path.value.s)) && apiUrl.Some? ==>
            r == Done(Some(StaticBase(apiUrl.value) + "/" + CleanPath(path.value.s))))
  {
    if !Truthy(path) then Done(None)
    else if !path.value.JStr? then Threw
    else
      var p := path.value.s;
      if StartsWith(p, "http") then Done(Some(p))
      else
        var clean := CleanPath(p);
        if !HasImageExtension(clean) then Done(None)
        else if apiUrl.None? then Threw
        else Done(Some(StaticBase(apiUrl.value) + "/" + clean))
  }

  /** Putting text in front of a path keeps its extension. */
  lemma ExtensionSurvivesPrefix(a: string, c: string)
    requires HasImageExtension(c)
    ensures HasImageExtension(a + c)
  {
    var e :| e in ImageExtensions && EndsWith(Lower(c), "." + e);
    assert Lower(a + c) == Lower(a) + Lower(c);
    assert EndsWith(Lower(a + c), "." + e);
  }

  /** A built URL is the base, one slash and the cleaned path, with no slash doubled at
      the join, and it ends in an image extension. */
  lemma BuiltUrlShape(path: string, apiUrl: string)
    requires Truthy(Some(JStr(path))) && !StartsWith(path, "http") && HasImageExtension(CleanPath(path))
    ensures var b := StaticBase(apiUrl);
            var url := b + "/" + CleanPath(path);
            && GetImageUrl(Some(JStr(path)), Some(apiUrl)) == Done(Some(url))
            && (|b| > 0 ==> url[|b| - 1] != '/')
            && url[|b| + 1] == 'u'
            && HasImageExtension(url)
  {
    var b := StaticBase(apiUrl);
    var c := CleanPath(path);
    assert c[0] == 'u';
    assert (b + "/" + c)[|b| + 1] == c[0];
    ExtensionSurvivesPrefix(b + "/", c);
  }

  /** A path rejected for its extension stays rejected whatever the API URL. */
  lemma ExtensionCheckedBeforeBase(path: string, a: Option<string>, b: Option<string>)
    requires !StartsWith(path, "http") && !HasImageExtension(CleanPath(path))
    ensures GetImageUrl(Some(JStr(path)), a) == GetImageUrl(Some(JStr(path)), b) == Done(None)
  {
  }
}
