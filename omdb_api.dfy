/** The pure part of the OMDb client: the request parameters built from a
    title, and the movie record built from a decoded JSON response, with the
    API's "N/A" placeholder replaced by defaults. The HTTP request itself is
    not part of this model. */
module OmdbApi {
  import opened Records

  /** The placeholder OMDb sends for a field it has no value for. */
  const NotAvailable: string := "N/A"

  /** A field the record builder treats as unknown: absent or "N/A". */
  predicate Missing(data: map<string, string>, key: string) {
    key !in data || data[key] == NotAvailable
  }

  /** `safe_get`: the value under `key`, except that an absent key and the
      "N/A" placeholder both give `default`. */
  function SafeGet(data: map<string, string>, key: string, default: Option<string>): (r: Option<string>)
    ensures key !in data ==> r == default
    ensures key in data && data[key] == NotAvailable ==> r == default
    ensures key in data && data[key] != NotAvailable ==> r == Some(data[key])
  {
    var value := if key in data then Some(data[key]) else default;
    if value == Some(NotAvailable) then default else value
  }

  /** The record `get_movie_info` returns; the imdbRating field is not
      modelled (it goes through a float conversion). */
  datatype MovieInfo = MovieInfo(
    title: string,
    year: string,
    poster: Option<string>,
    director: string)

  /** The response-to-record step of `get_movie_info`: no record unless
      `Response` is the string "True"; otherwise each field is taken from
      the response, with a default for a missing or "N/A" one. */
  function ParseResponse(data: map<string, string>): (r: Option<MovieInfo>)
    ensures r.Some? <==> "Response" in data && data["Response"] == "True"
    ensures r.Some? ==>
      && r.value.title == (if Missing(data, "Title") then "Unknown Title" else data["Title"])
      && r.value.year == (if Missing(data, "Year") then "0" else data["Year"])
      && r.value.poster == (if Missing(data, "Poster") then None else Some(data["Poster"]))
      && r.value.director == (if Missing(data, "Director") then "Unknown Director" else data["Director"])
  {
    if "Response" in data && data["Response"] == "True" then
      Some(MovieInfo(
        SafeGet(data, "Title", Some("Unknown Title")).value,
        SafeGet(data, "Year", Some("0")).value,
        SafeGet(data, "Poster", None),
        SafeGet(data, "Director", Some("Unknown Director")).value))
    else
      None
  }

  /** The characters Python's `str.isspace` accepts, which `str.strip`
      removes. */
  predicate IsSpace(c: char) {
    || ('\U{9}' <= c <= '\U{D}')
    || ('\U{1C}' <= c <= '\U{20}')
    || c == '\U{85}' || c == '\U{A0}' || c == '\U{1680}'
    || ('\U{2000}' <= c <= '\U{200A}')
    || c == '\U{2028}' || c == '\U{2029}' || c == '\U{202F}' || c == '\U{205F}'
    || c == '\U{3000}'
  }

  /** `r` is `s` without its surrounding whitespace, found at index `i`:
      everything before `i` and after `r` is whitespace, and `r` neither
      starts nor ends with whitespace. */
  predicate StrippedAt(s: string, r: string, i: int) {
    && 0 <= i <= |s| - |r|
    && r == s[i..i + |r|]
    && (forall k :: 0 <= k < i ==> IsSpace(s[k]))
    && (forall k :: i + |r| <= k < |s| ==> IsSpace(s[k]))
    && (r == [] || (!IsSpace(r[0]) && !IsSpace(r[|r| - 1])))
  }

  /** `s` without its leading whitespace. */
  function TrimLeft(s: string): (r: string)
    ensures |r| <= |s| && r == s[|s| - |r|..]
    ensures forall k :: 0 <= k < |s| - |r| ==> IsSpace(s[k])
    ensures r == [] || !IsSpace(r[0])
  {
    if s != [] && IsSpace(s[0]) then TrimLeft(s[1..]) else s
  }

  /** `s` without its trailing whitespace. */
  function TrimRight(s: string): (r: string)
    ensures |r| <= |s| && r == s[..|r|]
    ensures forall k :: |r| <= k < |s| ==> IsSpace(s[k])
    ensures r == [] || !IsSpace(r[|r| - 1])
  {
    if s != [] && IsSpace(s[|s| - 1]) then TrimRight(s[..|s| - 1]) else s
  }

  /** Python's `str.strip()` with no argument. */
  function Strip(s: string): (r: string)
    ensures exists i :: StrippedAt(s, r, i)
  {
    var left := TrimLeft(s);
    var r := TrimRight(left);
    assert r == [] || !IsSpace(r[0]) by {
      if r != [] {
        assert r[0] == left[0];
      }
    }
    assert StrippedAt(s, r, |s| - |left|);
    r
  }

  /** At most one string is `s` stripped: StrippedAt determines Strip. */
  lemma StrippedUnique(s: string, r1: string, i1: int, r2: string, i2: int)
    requires StrippedAt(s, r1, i1) && StrippedAt(s, r2, i2)
    ensures r1 == r2
  {
    if r1 != [] && r2 != [] {
      assert s[i1] == r1[0] && s[i2] == r2[0];
      assert i1 == i2;
      assert s[i1 + |r1| - 1] == r1[|r1| - 1] && s[i2 + |r2| - 1] == r2[|r2| - 1];
      assert |r1| == |r2|;
    }
  }

  /** Stripping twice is stripping once. */
  lemma StripIdempotent(s: string)
    ensures Strip(Strip(s)) == Strip(s)
  {
    var r := Strip(s);
    var i :| StrippedAt(s, r, i);
    assert StrippedAt(r, r, 0);
    var j :| StrippedAt(r, Strip(r), j);
    StrippedUnique(r, r, 0, Strip(r), j);
  }

  /** The query parameters `get_movie_info` sends. */
  datatype Params = Params(t: string, apiKey: Option<string>)

  /** The request parameters: `t` is the title with its surrounding
      whitespace removed, `apikey` the configured key (None when unset). */
  function RequestParams(title: string, apiKey: Option<string>): (r: Params)
    ensures exists i :: StrippedAt(title, r.t, i)
    ensures r.apiKey == apiKey
  {
    Params(Strip(title), apiKey)
  }
}
