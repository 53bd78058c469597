/** The StreamingCommunity extractor: URL dispatch, the season and watch URL
    patterns, episode records, a season's entry list, the lazily cached site
    version, the just-in-time manifest request and the host test. Every HTTP
    response is an input: a `Web` value says what each request returns, and
    a request it holds no answer for raises. */
module StreamingCommunity {
  import opened Wrappers
  import opened PyStr
  import opened UrlComponents
  import opened Embed

  /** The browser user agent passed on with every manifest request. */
  const UserAgent: string := "Mozilla/5.0 (Windows NT 10.0; Win64; x64) AppleWebKit/537.36 (KHTML, like Gecko) Chrome/131.0.0.0 Safari/537.36"

  /** Python truthiness of an optional string. */
  predicate Truthy(o: Option<string>) { o.Some? && o.value != [] }

  /** Python truthiness of an optional integer. */
  predicate TruthyInt(o: Option<int>) { o.Some? && o.value != 0 }

  /** `d.get(key, default)` once the lookup is done. */
  function Default(o: Option<string>, d: string): string { if o.Some? then o.value else d }

  // ---- what the site answers ----

  /** The `/it` landing page: the request or the payload decoding raises,
      the page has no `data-page` payload, or the payload carries this
      `version` (`None` when absent or null). */
  datatype Landing = LandingFailed | NoPageData | PageData(version: Option<string>)

  /** `props.episode` of a watch reply; an absent or null name reads as "". */
  datatype EpisodeInfo = EpisodeInfo(season: Option<int>, number: Option<int>, name: string)

  /** An entry of `props.loadedSeason.episodes`; an absent name is
      `Some("")`, a null one `None`. */
  datatype EpisodeEntry = EpisodeEntry(id: Option<int>, number: Option<int>, name: Option<string>)

  /** `props.title.name` of an Inertia reply: absent, `null`, or a string. */
  datatype NameField = NameAbsent | NameNull | NameText(value: string)

  /** `title.get("name", "Unknown")`, with Python's `None` as `None`. */
  function TitleNameOf(f: NameField): (r: Option<string>)
    ensures r.None? <==> f.NameNull?
    ensures f.NameText? ==> r == Some(f.value)
  {
    match f
    case NameAbsent => Some("Unknown")
    case NameNull => None
    case NameText(s) => Some(s)
  }

  /** The `props` of an Inertia reply; absent keys are `None` or `[]`. */
  datatype Props = Props(
    titleName: NameField, titleType: Option<string>, embedUrl: Option<string>,
    episode: Option<EpisodeInfo>, episodes: seq<EpisodeEntry>)

  /** An HTML page: whether its status passes `raise_for_status`, the first
      iframe's `src`, and its inline scripts. */
  datatype Page = Page(ok: bool, iframeSrc: Option<string>, scripts: seq<Script>)

  /** The landing page, the Inertia replies by full URL and the HTML pages
      by URL. */
  datatype Web = Web(landing: Landing, api: map<string, Props>, pages: map<string, Page>)

  // ---- what the extractor returns ----

  /** The varying fields of a video record; `ext`, `_type`, `extractor`,
      `extractor_key` and the extraction flag are constants. */
  datatype MediaRecord = MediaRecord(
    id: string, title: string, url: string,
    seasonNumber: Option<int>, episodeNumber: Option<int>, episode: string,
    series: Option<string>, baseUrl: string)

  datatype Playlist = Playlist(id: string, title: string, originalUrl: string, entries: seq<MediaRecord>)

  datatype Info = VideoInfo(record: MediaRecord) | PlaylistInfo(playlist: Playlist)

  /** What `get_fresh_m3u8` returns: the manifest URL, the three headers
      and the cookie string. */
  datatype FreshM3u8 = FreshM3u8(m3u8Url: string, referer: string, origin: string, userAgent: string, cookies: string)

  // ---- the site version and the Inertia request ----

  /** `get_version` from a cached value: the result and the new cache. */
  function VersionStep(cached: Option<string>, landing: Landing): (r: (Outcome<Option<string>>, Option<string>))
    ensures Truthy(cached) ==> r == (Ok(cached), cached)
    ensures r.0.Ok? && Truthy(r.0.value) ==> r.1 == r.0.value
  {
    if Truthy(cached) then (Ok(cached), cached)
    else match landing
      case LandingFailed => (Raised, cached)
      case NoPageData => (Ok(None), cached)
      case PageData(v) => (Ok(v), v)
  }

  /** `_inertia_get(path)`: a reply only with a non-empty version, and only
      the one the site holds for `baseUrl + path`. */
  function InertiaStep(baseUrl: string, cached: Option<string>, web: Web, path: string): (r: (Outcome<Props>, Option<string>))
    ensures r.0.Ok? ==> Truthy(r.1) && baseUrl + path in web.api && r.0.value == web.api[baseUrl + path]
    ensures Truthy(cached) ==> r.1 == cached
  {
    var v := VersionStep(cached, web.landing);
    if v.0.Raised? || !Truthy(v.0.value) || baseUrl + path !in web.api then (Raised, v.1)
    else (Ok(web.api[baseUrl + path]), v.1)
  }

  // ---- from the embed URL to the manifest ----

  /** `get_m3u8_from_embed(embedUrl)`. */
  function M3u8FromEmbed(web: Web, embedUrl: string): Outcome<Option<M3u8>>
  {
    if embedUrl in web.pages && web.pages[embedUrl].ok then FromScripts(web.pages[embedUrl].scripts, embedUrl)
    else Raised
  }

  /** The steps every caller takes from `props.embedUrl`: fetch the embed
      page, take its iframe `src`, extract the manifest there. `Ok(None)`
      where the source logs and returns None; a result carries the `src`. */
  function StreamFromProps(web: Web, props: Props): (r: Outcome<Option<(string, M3u8)>>)
    ensures r.Ok? && r.value.Some? ==>
      r.value.value.1.referer == r.value.value.0 && UrlParse(r.value.value.1.m3u8Url).Some?
  {
    if !Truthy(props.embedUrl) then Ok(None)
    else if props.embedUrl.value !in web.pages then Raised
    else
      var iframe := web.pages[props.embedUrl.value].iframeSrc;
      if !Truthy(iframe) then Ok(None)
      else match M3u8FromEmbed(web, iframe.value)
        case Raised => Raised
        case Ok(None) => Ok(None)
        case Ok(Some(m)) =>
          FromScriptsResult(web.pages[iframe.value].scripts, iframe.value);
          Ok(Some((iframe.value, m)))
  }

  predicate Streams(web: Web, props: Props) {
    var s := StreamFromProps(web, props);
    s.Ok? && s.value.Some?
  }

  // ---- episode titles and records ----

  /** `f"{name} S{season:02d}E{episode:02d}"`, then `" - {episodeName}"`
      when the episode name is non-empty. */
  function EpisodeTitle(titleName: string, season: int, episode: int, episodeName: string): string
  {
    titleName + " S" + Pad2(season) + "E" + Pad2(episode)
    + (if episodeName != [] then " - " + episodeName else "")
  }

  /** For season and episode numbers below 100 the title is the name, two
      digits of season, two of episode, and the episode name only when it
      is non-empty. */
  lemma EpisodeTitleForm(titleName: string, season: int, episode: int, episodeName: string)
    requires 0 <= season < 100 && 0 <= episode < 100
    ensures var t := EpisodeTitle(titleName, season, episode, episodeName);
      var n := |titleName|;
      |t| >= n + 7 && t[..n] == titleName && t[n..n + 2] == " S" && t[n + 4] == 'E'
      && ParseInt(t[n + 2..n + 4]) == season && ParseInt(t[n + 5..n + 7]) == episode
      && (episodeName == [] <==> |t| == n + 7)
      && (episodeName != [] ==> t[n + 7..] == " - " + episodeName)
  {
    Pad2Form(season);
    Pad2Form(episode);
    var t := EpisodeTitle(titleName, season, episode, episodeName);
    var n := |titleName|;
    var tail := if episodeName != [] then " - " + episodeName else "";
    assert t == titleName + " S" + Pad2(season) + "E" + Pad2(episode) + tail;
    assert t[n + 2..n + 4] == Pad2(season);
    assert t[n + 5..n + 7] == Pad2(episode);
    assert t[n + 7..] == tail;
  }

  /** `/watch/{title_id}?e={episode_id}`. */
  function WatchEpisodeTail(titleId: string, episodeId: string): string
  {
    "/watch/" + titleId + "?e=" + episodeId
  }

  /** The path `extract_episode` requests and stores. */
  function WatchEpisodePath(titleId: string, episodeId: string): string
  {
    "/it" + WatchEpisodeTail(titleId, episodeId)
  }

  /** The record `extract_episode` returns. */
  function EpisodeRecord(baseUrl: string, titleId: string, episodeId: string, titleName: string,
                         season: int, episode: int, episodeName: string): MediaRecord
  {
    MediaRecord("sc_" + titleId + "_" + episodeId, EpisodeTitle(titleName, season, episode, episodeName),
      baseUrl + WatchEpisodePath(titleId, episodeId), Some(season), Some(episode), episodeName,
      Some(titleName), baseUrl)
  }

  /** `extract_episode`: every failure, raised or logged, is `None`. A
      `None` series name makes `re.sub` raise once the manifest is found,
      which the function's `except` also turns into `None`. */
  function EpisodeStep(baseUrl: string, cached: Option<string>, web: Web, titleId: string, episodeId: string,
                       titleName: Option<string>, season: int, episode: int, episodeName: string)
    : (r: (Option<MediaRecord>, Option<string>))
    ensures r.0.Some? ==> baseUrl + WatchEpisodePath(titleId, episodeId) in web.api && titleName.Some?
    ensures Truthy(cached) ==> r.1 == cached
  {
    var a := InertiaStep(baseUrl, cached, web, WatchEpisodePath(titleId, episodeId));
    (if a.0.Ok? && Streams(web, a.0.value) && titleName.Some?
     then Some(EpisodeRecord(baseUrl, titleId, episodeId, titleName.value, season, episode, episodeName))
     else None,
     a.1)
  }

  /** `extract_episode` returns a record exactly when the watch reply
      arrives, its embed page yields a manifest and the series name is not
      `None`. The record's id joins the title and episode ids, its title is
      `EpisodeTitle`'s, and it stores the episode's watch page. */
  lemma EpisodeStepRecord(baseUrl: string, cached: Option<string>, web: Web, titleId: string, episodeId: string,
                          titleName: Option<string>, season: int, episode: int, episodeName: string)
    ensures var a := InertiaStep(baseUrl, cached, web, WatchEpisodePath(titleId, episodeId)).0;
      var r := EpisodeStep(baseUrl, cached, web, titleId, episodeId, titleName, season, episode, episodeName).0;
      (r.Some? <==> a.Ok? && Streams(web, a.value) && titleName.Some?)
      && (r.Some? ==>
            r.value.id == "sc_" + titleId + "_" + episodeId
            && r.value.title == EpisodeTitle(titleName.value, season, episode, episodeName)
            && r.value.url == baseUrl + WatchEpisodePath(titleId, episodeId)
            && r.value.seasonNumber == Some(season) && r.value.episodeNumber == Some(episode)
            && r.value.episode == episodeName && r.value.series == titleName && r.value.baseUrl == baseUrl)
  {
  }

  // ---- the URL patterns ----

  /** The length of the leading run of ASCII digits. */
  function DigitPrefix(s: string): (n: nat)
    ensures n <= |s|
    ensures forall j :: 0 <= j < n ==> IsDigit(s[j])
    ensures n == |s| || !IsDigit(s[n])
  {
    if s != [] && IsDigit(s[0]) then 1 + DigitPrefix(s[1..]) else 0
  }

  /** The length of the leading run of characters other than `/`. */
  function SegmentPrefix(s: string): (n: nat)
    ensures n <= |s|
    ensures forall j :: 0 <= j < n ==> s[j] != '/'
    ensures n == |s| || s[n] == '/'
  {
    if s != [] && s[0] != '/' then 1 + SegmentPrefix(s[1..]) else 0
  }

  lemma {:induction false} DigitPrefixIs(s: string, n: nat)
    requires n <= |s|
    requires forall j :: 0 <= j < n ==> IsDigit(s[j])
    requires n == |s| || !IsDigit(s[n])
    ensures DigitPrefix(s) == n
  {
    if n > 0 { DigitPrefixIs(s[1..], n - 1); }
  }

  lemma {:induction false} SegmentPrefixIs(s: string, n: nat)
    requires n <= |s|
    requires forall j :: 0 <= j < n ==> s[j] != '/'
    requires n == |s| || s[n] == '/'
    ensures SegmentPrefix(s) == n
  {
    if n > 0 { SegmentPrefixIs(s[1..], n - 1); }
  }

  /** The leftmost `Some` at or after index `from`, with its index: how
      `re.search` picks among the positions a pattern matches at. */
  function FirstSome<T>(ms: seq<Option<T>>, from: nat): (r: Option<(nat, T)>)
    requires from <= |ms|
    ensures r.None? ==> forall j :: from <= j < |ms| ==> ms[j].None?
    ensures r.Some? ==> from <= r.value.0 < |ms| && ms[r.value.0] == Some(r.value.1)
    ensures r.Some? ==> forall j :: from <= j < r.value.0 ==> ms[j].None?
    decreases |ms| - from
  {
    if from == |ms| then None
    else if ms[from].Some? then Some((from, ms[from].value))
    else FirstSome(ms, from + 1)
  }

  /** A `Some` with only `None` before it is the one found. */
  lemma FirstSomeAt<T>(ms: seq<Option<T>>, k: nat)
    requires k < |ms| && ms[k].Some? && forall j :: 0 <= j < k ==> ms[j].None?
    ensures FirstSome(ms, 0) == Some((k, ms[k].value))
  {
    assert FirstSome(ms, 0).Some?;
  }

  datatype SeasonIds = SeasonIds(titleId: string, slug: string, season: nat)

  /** `/titles/(\d+)-([^/]+)/season-(\d+)` matched at the start of `s`. Each
      group is a maximal run: a shorter run is followed by a character the
      pattern cannot take next, so backtracking never matches where this
      does not. */
  function SeasonPrefix(s: string): Option<SeasonIds>
  {
    if StartsWith(s, "/titles/") then TitleIdGroup(s[8..]) else None
  }

  /** `(\d+)-` and the rest. */
  function TitleIdGroup(a: string): Option<SeasonIds>
  {
    var d := DigitPrefix(a);
    if d == 0 || d == |a| || a[d] != '-' then None else SlugGroup(a[..d], a[d + 1..])
  }

  /** `([^/]+)/season-` and the rest. */
  function SlugGroup(titleId: string, b: string): Option<SeasonIds>
  {
    var n := SegmentPrefix(b);
    if n == 0 || !StartsWith(b[n..], "/season-") then None else SeasonGroup(titleId, b[..n], b[n + 8..])
  }

  /** `(\d+)`, read as `int(...)`. */
  function SeasonGroup(titleId: string, slug: string, c: string): Option<SeasonIds>
  {
    var e := DigitPrefix(c);
    if e == 0 then None else Some(SeasonIds(titleId, slug, DigitsValue(c[..e])))
  }

  /** The match, if any, at every index of `url`. */
  function SeasonCandidates(url: string): (ms: seq<Option<SeasonIds>>)
    ensures |ms| == |url| + 1
  {
    seq(|url| + 1, j requires 0 <= j <= |url| => SeasonPrefix(url[j..]))
  }

  /** `re.search(r"/titles/(\d+)-([^/]+)/season-(\d+)", url)`. */
  function SeasonMatch(url: string): Option<SeasonIds>
  {
    var found := FirstSome(SeasonCandidates(url), 0);
    if found.Some? then Some(found.value.1) else None
  }

  /** The season path a title id, slug and number make. */
  function SeasonPath(ids: SeasonIds): string
  {
    "/titles/" + ids.titleId + "-" + ids.slug + "/season-" + NatToString(ids.season)
  }

  function TitleApiPath(ids: SeasonIds): string
  {
    "/it/titles/" + ids.titleId + "-" + ids.slug
  }

  /** The season number goes back in as `str(int(...))`: without leading
      zeros. */
  function SeasonApiPath(ids: SeasonIds): string
  {
    TitleApiPath(ids) + "/season-" + NatToString(ids.season)
  }

  /** No match can start inside `prefix`: each `/` in it is followed, still
      inside it, by a character other than `c`. */
  predicate NoMatchStart(prefix: string, c: char) {
    forall j :: 0 <= j < |prefix| && prefix[j] == '/' ==> j + 1 < |prefix| && prefix[j + 1] != c
  }

  /** A pattern `/c...` cannot start inside such a prefix when what follows
      starts with `/`. */
  lemma NoOccurrenceInPrefix(prefix: string, tail: string, pat: string, j: nat)
    requires |pat| >= 2 && pat[0] == '/' && NoMatchStart(prefix, pat[1]) && j < |prefix|
    requires tail != [] && tail[0] == '/'
    ensures !StartsWith((prefix + tail)[j..], pat)
  {
    var w := (prefix + tail)[j..];
    assert w[0] == prefix[j];
    assert w[1] == if j + 1 < |prefix| then prefix[j + 1] else tail[0];
    assert w[0] != pat[0] || w[1] != pat[1];
    if |pat| <= |w| {
      assert w[..|pat|][0] == w[0] && w[..|pat|][1] == w[1];
    }
  }

  /** What follows a literal head. */
  lemma AfterHead(head: string, a: string)
    ensures StartsWith(head + a, head) && (head + a)[|head|..] == a
  {
    assert (head + a)[..|head|] == head;
  }

  /** A season path, followed by anything that does not extend its number,
      matches at its start. */
  lemma SeasonPrefixOfPath(ids: SeasonIds, rest: string)
    requires ids.titleId != [] && AllDigits(ids.titleId) && ids.slug != [] && '/' !in ids.slug
    requires rest == [] || !IsDigit(rest[0])
    ensures SeasonPrefix(SeasonPath(ids) + rest) == Some(ids)
  {
    var digits := NatToString(ids.season);
    var c := digits + rest;
    var b := ids.slug + "/season-" + c;
    var a := ids.titleId + "-" + b;
    assert SeasonPath(ids) + rest == "/titles/" + a;
    AfterHead("/titles/", a);
    TitleIdGroupOf(ids.titleId, b);
    SlugGroupOf(ids.titleId, ids.slug, c);
    NatToStringRoundTrip(ids.season);
    SeasonGroupOf(ids.titleId, ids.slug, digits, rest);
  }

  lemma TitleIdGroupOf(titleId: string, b: string)
    requires titleId != [] && AllDigits(titleId)
    ensures TitleIdGroup(titleId + "-" + b) == SlugGroup(titleId, b)
  {
    var a := titleId + "-" + b;
    assert a[..|titleId|] == titleId && a[|titleId|] == '-' && a[|titleId| + 1..] == b;
    DigitPrefixIs(a, |titleId|);
  }

  lemma SeasonGroupOf(titleId: string, slug: string, digits: string, rest: string)
    requires digits != [] && AllDigits(digits) && (rest == [] || !IsDigit(rest[0]))
    ensures SeasonGroup(titleId, slug, digits + rest) == Some(SeasonIds(titleId, slug, DigitsValue(digits)))
  {
    var c := digits + rest;
    assert c[..|digits|] == digits;
    if |digits| < |c| { assert c[|digits|] == rest[0]; }
    DigitPrefixIs(c, |digits|);
  }

  lemma SlugGroupOf(titleId: string, slug: string, c: string)
    requires slug != [] && '/' !in slug
    ensures SlugGroup(titleId, slug + "/season-" + c) == SeasonGroup(titleId, slug, c)
  {
    var b := slug + "/season-" + c;
    assert b[..|slug|] == slug && b[|slug|] == '/';
    assert forall j :: 0 <= j < |slug| ==> b[j] == slug[j];
    SegmentPrefixIs(b, |slug|);
    assert b[|slug|..] == "/season-" + c;
    AfterHead("/season-", c);
  }

  /** The candidate at the end of `prefix` is the match at the start of `tail`. */
  lemma SeasonCandidateAt(prefix: string, tail: string)
    ensures SeasonCandidates(prefix + tail)[|prefix|] == SeasonPrefix(tail)
  {
    assert (prefix + tail)[|prefix|..] == tail;
  }

  /** Only `tail` can hold a match when no match can start in `prefix`. */
  lemma SeasonMatchAfter(prefix: string, tail: string)
    requires NoMatchStart(prefix, 't') && tail != [] && tail[0] == '/'
    requires SeasonPrefix(tail).Some?
    ensures SeasonMatch(prefix + tail) == SeasonPrefix(tail)
  {
    var ms := SeasonCandidates(prefix + tail);
    SeasonCandidateAt(prefix, tail);
    forall j | 0 <= j < |prefix| ensures ms[j].None? {
      NoOccurrenceInPrefix(prefix, tail, "/titles/", j);
    }
    FirstSomeAt(ms, |prefix|);
  }

  /** A season path after a prefix no match can start in is parsed back to
      its title id, slug and number. */
  lemma SeasonPathMatches(prefix: string, ids: SeasonIds, rest: string)
    requires NoMatchStart(prefix, 't')
    requires ids.titleId != [] && AllDigits(ids.titleId) && ids.slug != [] && '/' !in ids.slug
    requires rest == [] || !IsDigit(rest[0])
    ensures SeasonMatch(prefix + SeasonPath(ids) + rest) == Some(ids)
  {
    SeasonPrefixOfPath(ids, rest);
    SeasonMatchAfter(prefix, SeasonPath(ids) + rest);
    ConcatAssoc(prefix, SeasonPath(ids), rest);
  }

  lemma ConcatAssoc(a: string, b: string, c: string)
    ensures a + b + c == a + (b + c)
  {
  }

  /** A string holds what a suffix of it holds. */
  lemma ContainsSuffix(s: string, k: nat, p: string)
    requires k <= |s| && Contains(s[k..], p)
    ensures Contains(s, p)
  {
    var m :| 0 <= m <= |s[k..]| && OccursAt(s[k..], p, m);
    assert s[k..][m..m + |p|] == s[k + m..k + m + |p|];
    assert OccursAt(s, p, k + m);
  }

  lemma SlugGroupMarker(titleId: string, b: string)
    requires SlugGroup(titleId, b).Some?
    ensures Contains(b, "/season-")
  {
    var n := SegmentPrefix(b);
    assert b[n..][..8] == b[n..n + 8];
    assert OccursAt(b, "/season-", n);
  }

  lemma TitleIdGroupMarker(a: string)
    requires TitleIdGroup(a).Some?
    ensures Contains(a, "/season-")
  {
    var d := DigitPrefix(a);
    SlugGroupMarker(a[..d], a[d + 1..]);
    ContainsSuffix(a, d + 1, "/season-");
  }

  /** A URL the season pattern accepts holds `/season-`, so dispatch sends it
      to season extraction. */
  lemma SeasonMatchHasMarker(url: string)
    requires SeasonMatch(url).Some?
    ensures Contains(url, "/season-")
  {
    var i := FirstSome(SeasonCandidates(url), 0).value.0;
    var s := url[i..];
    TitleIdGroupMarker(s[8..]);
    ContainsSuffix(s, 8, "/season-");
    ContainsSuffix(url, i, "/season-");
  }

  datatype WatchIds = WatchIds(titleId: string, episode: Option<string>)

  /** `/watch/(\d+)(?:\?e=(\d+))?` matched at the start of `s`. */
  function WatchPrefix(s: string): Option<WatchIds>
  {
    if StartsWith(s, "/watch/") then WatchIdGroup(s[7..]) else None
  }

  /** `(\d+)` and the optional group after it. */
  function WatchIdGroup(a: string): Option<WatchIds>
  {
    var d := DigitPrefix(a);
    if d == 0 then None else Some(WatchIds(a[..d], EpisodeGroup(a[d..])))
  }

  /** `(?:\?e=(\d+))?`: taken when `?e=` is followed by at least one digit. */
  function EpisodeGroup(b: string): Option<string>
  {
    if StartsWith(b, "?e=") && DigitPrefix(b[3..]) > 0 then Some(b[3..][..DigitPrefix(b[3..])]) else None
  }

  function WatchCandidates(url: string): (ms: seq<Option<WatchIds>>)
    ensures |ms| == |url| + 1
  {
    seq(|url| + 1, j requires 0 <= j <= |url| => WatchPrefix(url[j..]))
  }

  /** `re.search(r"/watch/(\d+)(?:\?e=(\d+))?", url)`. */
  function WatchMatch(url: string): Option<WatchIds>
  {
    var found := FirstSome(WatchCandidates(url), 0);
    if found.Some? then Some(found.value.1) else None
  }

  /** `/it/watch/{id}`, with `?e={episode}` when the URL named one. */
  function WatchApiPath(ids: WatchIds): string
  {
    "/it/watch/" + ids.titleId + (if ids.episode.Some? then "?e=" + ids.episode.value else "")
  }

  /** The reply a watch URL with an episode asks for is the one
      `extract_episode` asks for. */
  lemma WatchApiPathOfEpisode(titleId: string, episodeId: string)
    ensures WatchApiPath(WatchIds(titleId, Some(episodeId))) == WatchEpisodePath(titleId, episodeId)
  {
    var tail := WatchEpisodeTail(titleId, episodeId);
    assert "/it/watch/" + titleId + ("?e=" + episodeId) == "/it" + tail;
  }

  lemma WatchPrefixOfPath(titleId: string, episodeId: string)
    requires titleId != [] && AllDigits(titleId) && episodeId != [] && AllDigits(episodeId)
    ensures WatchPrefix(WatchEpisodeTail(titleId, episodeId)) == Some(WatchIds(titleId, Some(episodeId)))
  {
    var b := "?e=" + episodeId;
    var a := titleId + b;
    assert WatchEpisodeTail(titleId, episodeId) == "/watch/" + a;
    AfterHead("/watch/", a);
    assert WatchIdGroup(a) == Some(WatchIds(titleId, EpisodeGroup(b))) by {
      AfterHead(titleId, b);
      assert a[|titleId|] == '?';
      DigitPrefixIs(a, |titleId|);
    }
    assert EpisodeGroup(b) == Some(episodeId) by {
      AfterHead("?e=", episodeId);
      DigitPrefixIs(episodeId, |episodeId|);
      assert episodeId[..|episodeId|] == episodeId;
    }
  }

  lemma WatchCandidateAt(prefix: string, tail: string)
    ensures WatchCandidates(prefix + tail)[|prefix|] == WatchPrefix(tail)
  {
    assert (prefix + tail)[|prefix|..] == tail;
  }

  /** Only `tail` can hold a match when no match can start in `prefix`. */
  lemma WatchMatchAfter(prefix: string, tail: string)
    requires NoMatchStart(prefix, 'w') && tail != [] && tail[0] == '/'
    requires WatchPrefix(tail).Some?
    ensures WatchMatch(prefix + tail) == WatchPrefix(tail)
  {
    var ms := WatchCandidates(prefix + tail);
    WatchCandidateAt(prefix, tail);
    forall j | 0 <= j < |prefix| ensures ms[j].None? {
      NoOccurrenceInPrefix(prefix, tail, "/watch/", j);
    }
    FirstSomeAt(ms, |prefix|);
  }

  /** The URL an episode record stores reads back, through the watch
      pattern, as the same title and episode. */
  lemma EpisodeUrlRoundTrip(baseUrl: string, titleId: string, episodeId: string)
    requires NoMatchStart(baseUrl + "/it", 'w')
    requires titleId != [] && AllDigits(titleId) && episodeId != [] && AllDigits(episodeId)
    ensures WatchMatch(baseUrl + WatchEpisodePath(titleId, episodeId)) == Some(WatchIds(titleId, Some(episodeId)))
  {
    WatchPrefixOfPath(titleId, episodeId);
    WatchMatchAfter(baseUrl + "/it", WatchEpisodeTail(titleId, episodeId));
    ConcatAssoc(baseUrl, "/it", WatchEpisodeTail(titleId, episodeId));
  }

  /** A URL the watch pattern accepts holds `/watch/`. */
  lemma WatchMatchHasMarker(url: string)
    requires WatchMatch(url).Some?
    ensures Contains(url, "/watch/")
  {
    var i := FirstSome(WatchCandidates(url), 0).value.0;
    assert url[i..][..7] == url[i..i + 7];
    assert OccursAt(url, "/watch/", i);
  }

  // ---- a season's entries ----

  /** The values of the `Some` elements, in order. */
  function Successes<T>(os: seq<Option<T>>): (r: seq<T>)
    ensures |r| <= |os|
  {
    if os == [] then []
    else
      var init := Successes(os[..|os| - 1]);
      if os[|os| - 1].Some? then init + [os[|os| - 1].value] else init
  }

  lemma {:induction false} SuccessesAppend<T>(a: seq<Option<T>>, b: seq<Option<T>>)
    ensures Successes(a + b) == Successes(a) + Successes(b)
    decreases |b|
  {
    if b == [] {
      assert a + b == a;
    } else {
      var init := b[..|b| - 1];
      assert (a + b)[..|a + b| - 1] == a + init;
      SuccessesAppend(a, init);
    }
  }

  /** A value is kept exactly when some element carries it. */
  lemma {:induction false} SuccessesMembers<T>(os: seq<Option<T>>, x: T)
    ensures x in Successes(os) <==> Some(x) in os
  {
    if os != [] {
      var init := os[..|os| - 1];
      SuccessesMembers(init, x);
      assert os == init + [os[|os| - 1]];
    }
  }

  /** Without failures nothing is dropped. */
  lemma {:induction false} SuccessesAllSome<T>(os: seq<Option<T>>)
    requires forall i :: 0 <= i < |os| ==> os[i].Some?
    ensures |Successes(os)| == |os|
    ensures forall i :: 0 <= i < |os| ==> Successes(os)[i] == os[i].value
  {
    if os != [] {
      SuccessesAllSome(os[..|os| - 1]);
    }
  }

  /** One failure among N results leaves the other N - 1, in order. */
  lemma SuccessesOneFailure<T>(os: seq<Option<T>>, k: nat)
    requires k < |os| && os[k].None?
    requires forall i :: 0 <= i < |os| && i != k ==> os[i].Some?
    ensures |Successes(os)| == |os| - 1
    ensures forall i :: 0 <= i < k ==> Successes(os)[i] == os[i].value
    ensures forall i :: k < i < |os| ==> Successes(os)[i - 1] == os[i].value
  {
    var a := os[..k];
    var b := os[k + 1..];
    SuccessesSkip(os, k);
    SuccessesAllSome(a);
    SuccessesAllSome(b);
    assert forall i :: k < i < |os| ==> os[i] == b[i - k - 1];
  }

  /** A failure contributes nothing: the results around it are kept. */
  lemma SuccessesSkip<T>(os: seq<Option<T>>, k: nat)
    requires k < |os| && os[k].None?
    ensures Successes(os) == Successes(os[..k]) + Successes(os[k + 1..])
  {
    var a := os[..k];
    var b := os[k + 1..];
    assert os == a + [os[k]] + b;
    SuccessesAppend(a + [os[k]], b);
    SuccessesAppend(a, [os[k]]);
    assert Successes([os[k]]) == [] by {
      assert [os[k]][..0] == [];
    }
  }

  /** The log line before each episode formats its number with `02d` and
      slices its name: a missing number or a null name raises there. */
  predicate Formattable(ep: EpisodeEntry) { ep.number.Some? && ep.name.Some? }

  /** `str(ep.get("id"))`. */
  function EpisodeIdString(id: Option<int>): string
  {
    if id.Some? then IntToString(id.value) else "None"
  }

  /** `extract_episode` for one entry, with the version cached before the
      loop. An entry that cannot be formatted never gets this far (the loop
      raises first); it is given no record. */
  function EpisodeResult(baseUrl: string, version: Option<string>, web: Web, ids: SeasonIds,
                         titleName: Option<string>, ep: EpisodeEntry): Option<MediaRecord>
  {
    if Formattable(ep) then
      EpisodeStep(baseUrl, version, web, ids.titleId, EpisodeIdString(ep.id), titleName,
        ids.season, ep.number.value, ep.name.value).0
    else None
  }

  /** `f` applied to each element, in order. */
  function MapSeq<A, B>(f: A -> B, xs: seq<A>): (ys: seq<B>)
    ensures |ys| == |xs|
  {
    if xs == [] then [] else MapSeq(f, xs[..|xs| - 1]) + [f(xs[|xs| - 1])]
  }

  lemma {:induction false} MapSeqAt<A, B>(f: A -> B, xs: seq<A>, i: nat)
    requires i < |xs|
    ensures MapSeq(f, xs)[i] == f(xs[i])
  {
    if i < |xs| - 1 {
      MapSeqAt(f, xs[..|xs| - 1], i);
    }
  }

  lemma MapSeqSnoc<A, B>(f: A -> B, xs: seq<A>, i: nat)
    requires i < |xs|
    ensures MapSeq(f, xs[..i + 1]) == MapSeq(f, xs[..i]) + [f(xs[i])]
  {
    assert xs[..i + 1][..i] == xs[..i];
  }

  function EpisodeFn(baseUrl: string, version: Option<string>, web: Web, ids: SeasonIds,
                     titleName: Option<string>): EpisodeEntry -> Option<MediaRecord>
  {
    ep => EpisodeResult(baseUrl, version, web, ids, titleName, ep)
  }

  /** `extract_episode` for each entry, in order. */
  function EpisodeResults(baseUrl: string, version: Option<string>, web: Web, ids: SeasonIds,
                          titleName: Option<string>, eps: seq<EpisodeEntry>): seq<Option<MediaRecord>>
  {
    MapSeq(EpisodeFn(baseUrl, version, web, ids, titleName), eps)
  }

  /** Element `i` is the result for episode `i`. */
  lemma EpisodeResultsAt(baseUrl: string, version: Option<string>, web: Web, ids: SeasonIds,
                         titleName: Option<string>, eps: seq<EpisodeEntry>, i: nat)
    requires i < |eps|
    ensures EpisodeResults(baseUrl, version, web, ids, titleName, eps)[i]
      == EpisodeResult(baseUrl, version, web, ids, titleName, eps[i])
  {
    MapSeqAt(EpisodeFn(baseUrl, version, web, ids, titleName), eps, i);
  }

  /** One more episode adds its record, if it has one, to the successes. */
  lemma EntriesStep(baseUrl: string, version: Option<string>, web: Web, ids: SeasonIds,
                    titleName: Option<string>, eps: seq<EpisodeEntry>, i: nat)
    requires i < |eps|
    ensures Successes(EpisodeResults(baseUrl, version, web, ids, titleName, eps[..i + 1]))
      == Successes(EpisodeResults(baseUrl, version, web, ids, titleName, eps[..i]))
         + (var x := EpisodeResult(baseUrl, version, web, ids, titleName, eps[i]);
            if x.Some? then [x.value] else [])
  {
    var f := EpisodeFn(baseUrl, version, web, ids, titleName);
    var x := f(eps[i]);
    MapSeqSnoc(f, eps, i);
    SuccessesAppend(MapSeq(f, eps[..i]), [x]);
    assert [x][..0] == [];
  }

  /** The `entries` list: `Raised` when any entry cannot be formatted, else
      the successful episode records in episode order. */
  function SeasonEntries(baseUrl: string, version: Option<string>, web: Web, ids: SeasonIds,
                         titleName: Option<string>, eps: seq<EpisodeEntry>): Outcome<seq<MediaRecord>>
  {
    if forall i :: 0 <= i < |eps| ==> Formattable(eps[i])
    then Ok(Successes(EpisodeResults(baseUrl, version, web, ids, titleName, eps)))
    else Raised
  }

  /** One entry that cannot be formatted makes the whole list raise. */
  lemma SeasonEntriesRaised(baseUrl: string, version: Option<string>, web: Web, ids: SeasonIds,
                            titleName: Option<string>, eps: seq<EpisodeEntry>, i: nat)
    requires i < |eps| && !Formattable(eps[i])
    ensures SeasonEntries(baseUrl, version, web, ids, titleName, eps) == Raised
  {
  }

  /** Extending a formattable prefix by a formattable entry appends that
      entry's record, if any. */
  lemma SeasonEntriesStep(baseUrl: string, version: Option<string>, web: Web, ids: SeasonIds,
                          titleName: Option<string>, eps: seq<EpisodeEntry>, i: nat)
    requires i < |eps| && Formattable(eps[i])
    requires SeasonEntries(baseUrl, version, web, ids, titleName, eps[..i]).Ok?
    ensures var prev := SeasonEntries(baseUrl, version, web, ids, titleName, eps[..i]).value;
            var x := EpisodeResult(baseUrl, version, web, ids, titleName, eps[i]);
            SeasonEntries(baseUrl, version, web, ids, titleName, eps[..i + 1])
              == Ok(if x.Some? then prev + [x.value] else prev)
  {
    FormattablePrefixStep(eps, i, eps[..i + 1]);
    EntriesStep(baseUrl, version, web, ids, titleName, eps, i);
    var prev := Successes(EpisodeResults(baseUrl, version, web, ids, titleName, eps[..i]));
    assert prev + [] == prev;
  }

  lemma FormattablePrefixStep(eps: seq<EpisodeEntry>, i: nat, next: seq<EpisodeEntry>)
    requires i < |eps| && Formattable(eps[i]) && next == eps[..i + 1]
    requires forall j :: 0 <= j < |eps[..i]| ==> Formattable(eps[..i][j])
    ensures forall j :: 0 <= j < |next| ==> Formattable(next[j])
  {
    forall j | 0 <= j < |next|
      ensures Formattable(next[j])
    {
      if j < i {
        assert next[j] == eps[..i][j];
      }
    }
  }

  /** The playlist record; an f-string shows `None` as "None". */
  function SeasonPlaylistOf(url: string, ids: SeasonIds, titleName: Option<string>, entries: seq<MediaRecord>): Playlist
  {
    Playlist("sc_" + ids.titleId + "_s" + NatToString(ids.season),
      Default(titleName, "None") + " Season " + NatToString(ids.season), url, entries)
  }

  /** `extract_season`: the result and the new cache. */
  function SeasonStep(baseUrl: string, cached: Option<string>, web: Web, url: string)
    : (r: (Outcome<Option<Playlist>>, Option<string>))
    ensures r.0.Ok? && r.0.value.Some? ==> r.0.value.value.entries != [] && SeasonMatch(url).Some?
    ensures Truthy(cached) ==> r.1 == cached
  {
    match SeasonMatch(url)
    case None => (Ok(None), cached)
    case Some(ids) =>
      var t := InertiaStep(baseUrl, cached, web, TitleApiPath(ids));
      if t.0.Raised? then (Raised, t.1)
      else
        var titleName := TitleNameOf(t.0.value.titleName);
        var s := InertiaStep(baseUrl, t.1, web, SeasonApiPath(ids));
        if s.0.Raised? then (Raised, s.1)
        else
          var entries := SeasonEntries(baseUrl, s.1, web, ids, titleName, s.0.value.episodes);
          (if entries.Raised? then Raised
           else if entries.value == [] then Ok(None)
           else Ok(Some(SeasonPlaylistOf(url, ids, titleName, entries.value))),
           s.1)
  }

  /** A playlist's entries are the records of the episodes that succeeded,
      in the order the season lists them; each of them is the record of
      one episode. */
  lemma SeasonEntriesExact(baseUrl: string, version: Option<string>, web: Web, ids: SeasonIds,
                           titleName: Option<string>, eps: seq<EpisodeEntry>, m: MediaRecord)
    requires SeasonEntries(baseUrl, version, web, ids, titleName, eps).Ok?
    ensures m in SeasonEntries(baseUrl, version, web, ids, titleName, eps).value <==>
      exists i :: 0 <= i < |eps| && EpisodeResult(baseUrl, version, web, ids, titleName, eps[i]) == Some(m)
  {
    var rs := EpisodeResults(baseUrl, version, web, ids, titleName, eps);
    SuccessesMembers(rs, m);
    forall i | 0 <= i < |eps| {
      EpisodeResultsAt(baseUrl, version, web, ids, titleName, eps, i);
    }
  }

  /** No element of `os` holds a value: nothing is collected. */
  lemma {:induction false} SuccessesAllNone<T>(os: seq<Option<T>>)
    requires forall i :: 0 <= i < |os| ==> os[i].None?
    ensures Successes(os) == []
  {
    if os != [] {
      SuccessesAllNone(os[..|os| - 1]);
    }
  }

  /** With a `null` series name every episode fails, so the season has no
      entries. */
  lemma NullNameNoEntries(baseUrl: string, version: Option<string>, web: Web, ids: SeasonIds,
                          eps: seq<EpisodeEntry>)
    requires SeasonEntries(baseUrl, version, web, ids, None, eps).Ok?
    ensures SeasonEntries(baseUrl, version, web, ids, None, eps).value == []
  {
    var rs := EpisodeResults(baseUrl, version, web, ids, None, eps);
    forall i | 0 <= i < |rs| ensures rs[i].None? {
      EpisodeResultsAt(baseUrl, version, web, ids, None, eps, i);
    }
    SuccessesAllNone(rs);
  }

  /** A season whose title reply carries a `null` name yields no playlist:
      it raises or returns `None`. */
  lemma SeasonNullName(baseUrl: string, cached: Option<string>, web: Web, url: string)
    requires SeasonMatch(url).Some?
    requires var t := InertiaStep(baseUrl, cached, web, TitleApiPath(SeasonMatch(url).value));
      t.0.Ok? && t.0.value.titleName.NameNull?
    ensures SeasonStep(baseUrl, cached, web, url).0 != Ok(None) ==> SeasonStep(baseUrl, cached, web, url).0.Raised?
  {
    var ids := SeasonMatch(url).value;
    var t := InertiaStep(baseUrl, cached, web, TitleApiPath(ids));
    var s := InertiaStep(baseUrl, t.1, web, SeasonApiPath(ids));
    if s.0.Ok? && SeasonEntries(baseUrl, s.1, web, ids, None, s.0.value.episodes).Ok? {
      NullNameNoEntries(baseUrl, s.1, web, ids, s.0.value.episodes);
    }
  }

  /** `extract_season` against its two replies: either one raising makes
      the season raise; then the entries decide. Entries that raise make
      the season raise, no entries give `None`, and otherwise the playlist
      is `sc_{id}_s{n}`, titled `{name} Season {n}`, for the season's URL,
      holding exactly the entries `SeasonEntries` collects. */
  lemma SeasonStepPlaylist(baseUrl: string, cached: Option<string>, web: Web, url: string)
    requires SeasonMatch(url).Some?
    ensures var ids := SeasonMatch(url).value;
      var t := InertiaStep(baseUrl, cached, web, TitleApiPath(ids));
      var s := InertiaStep(baseUrl, t.1, web, SeasonApiPath(ids));
      var r := SeasonStep(baseUrl, cached, web, url);
      (t.0.Raised? ==> r.0.Raised?)
      && (t.0.Ok? && s.0.Raised? ==> r.0.Raised?)
      && (t.0.Ok? && s.0.Ok? ==>
            var name := TitleNameOf(t.0.value.titleName);
            var e := SeasonEntries(baseUrl, s.1, web, ids, name, s.0.value.episodes);
            r.1 == s.1
            && (e.Raised? ==> r.0.Raised?)
            && (e == Ok([]) ==> r.0 == Ok(None))
            && (e.Ok? && e.value != [] ==>
                  r.0 == Ok(Some(Playlist("sc_" + ids.titleId + "_s" + NatToString(ids.season),
                    Default(name, "None") + " Season " + NatToString(ids.season), url, e.value)))))
  {
  }

  // ---- a watch URL ----

  /** The record `extract_watch` returns once the manifest was found. */
  function WatchRecord(baseUrl: string, url: string, ids: WatchIds, props: Props): MediaRecord
  {
    var titleName := Default(TitleNameOf(props.titleName), "None");
    var titleType := Default(props.titleType, "movie");
    var season := if props.episode.Some? then props.episode.value.season else None;
    var number := if props.episode.Some? then props.episode.value.number else None;
    var name := if props.episode.Some? then props.episode.value.name else "";
    var series := if titleType == "tv" then Some(titleName) else None;
    if titleType == "tv" && TruthyInt(season) && TruthyInt(number) then
      MediaRecord("sc_" + ids.titleId + "_" + (if ids.episode.Some? then ids.episode.value else IntToString(number.value)),
        EpisodeTitle(titleName, season.value, number.value, name), url, season, number, name, series, baseUrl)
    else
      MediaRecord("sc_" + ids.titleId, titleName, url, season, number, name, series, baseUrl)
  }

  /** `extract_watch`: every failure after the match is `None`, including
      the `re.sub` on a `null` series name. */
  function WatchStep(baseUrl: string, cached: Option<string>, web: Web, url: string)
    : (r: (Option<MediaRecord>, Option<string>))
    ensures r.0.Some? ==> r.0.value.url == url && r.0.value.baseUrl == baseUrl && WatchMatch(url).Some?
    ensures Truthy(cached) ==> r.1 == cached
  {
    match WatchMatch(url)
    case None => (None, cached)
    case Some(ids) =>
      var a := InertiaStep(baseUrl, cached, web, WatchApiPath(ids));
      (if a.0.Ok? && Streams(web, a.0.value) && !a.0.value.titleName.NameNull?
       then Some(WatchRecord(baseUrl, url, ids, a.0.value)) else None,
       a.1)
  }

  /** A watch reply whose series name is `null` yields no record. */
  lemma WatchNullName(baseUrl: string, cached: Option<string>, web: Web, url: string)
    requires WatchMatch(url).Some?
    requires var a := InertiaStep(baseUrl, cached, web, WatchApiPath(WatchMatch(url).value));
      a.0.Ok? && a.0.value.titleName.NameNull?
    ensures WatchStep(baseUrl, cached, web, url).0.None?
  {
  }

  /** The fields of a watch record, by the two cases of `extract_watch`. */
  lemma WatchRecordShape(baseUrl: string, url: string, ids: WatchIds, p: Props)
    requires !p.titleName.NameNull?
    ensures var m := WatchRecord(baseUrl, url, ids, p);
      var name := TitleNameOf(p.titleName).value;
      var season := if p.episode.Some? then p.episode.value.season else None;
      var number := if p.episode.Some? then p.episode.value.number else None;
      var episodeName := if p.episode.Some? then p.episode.value.name else "";
      var tv := p.titleType == Some("tv");
      m.url == url && m.baseUrl == baseUrl
      && m.seasonNumber == season && m.episodeNumber == number && m.episode == episodeName
      && m.series == (if tv then Some(name) else None)
      && (tv && TruthyInt(season) && TruthyInt(number) ==>
            m.id == "sc_" + ids.titleId + "_"
              + (if ids.episode.Some? then ids.episode.value else IntToString(number.value))
            && m.title == EpisodeTitle(name, season.value, number.value, episodeName))
      && (!(tv && TruthyInt(season) && TruthyInt(number)) ==> m.id == "sc_" + ids.titleId && m.title == name)
  {
  }

  /** `extract_watch` returns a record exactly when the reply arrives, its
      embed page yields a manifest and the series name is not `None`. For a
      `"tv"` title with a truthy season and episode number, the id takes the
      URL's episode parameter, or else the episode number, and the title is
      `EpisodeTitle`'s; otherwise the id is the title id alone and the title
      is the series name. The series is set only for `"tv"`. */
  lemma WatchRecordFields(baseUrl: string, cached: Option<string>, web: Web, url: string)
    requires WatchMatch(url).Some?
    ensures var ids := WatchMatch(url).value;
      var a := InertiaStep(baseUrl, cached, web, WatchApiPath(ids)).0;
      var r := WatchStep(baseUrl, cached, web, url).0;
      (r.Some? <==> a.Ok? && Streams(web, a.value) && !a.value.titleName.NameNull?)
      && (r.Some? ==>
            var p := a.value;
            var name := TitleNameOf(p.titleName).value;
            var season := if p.episode.Some? then p.episode.value.season else None;
            var number := if p.episode.Some? then p.episode.value.number else None;
            var episodeName := if p.episode.Some? then p.episode.value.name else "";
            var tv := p.titleType == Some("tv");
            r.value.url == url && r.value.baseUrl == baseUrl
            && r.value.seasonNumber == season && r.value.episodeNumber == number
            && r.value.episode == episodeName
            && r.value.series == (if tv then Some(name) else None)
            && (tv && TruthyInt(season) && TruthyInt(number) ==>
                  r.value.id == "sc_" + ids.titleId + "_"
                    + (if ids.episode.Some? then ids.episode.value else IntToString(number.value))
                  && r.value.title == EpisodeTitle(name, season.value, number.value, episodeName))
            && (!(tv && TruthyInt(season) && TruthyInt(number)) ==>
                  r.value.id == "sc_" + ids.titleId && r.value.title == name))
  {
    var ids := WatchMatch(url).value;
    var a := InertiaStep(baseUrl, cached, web, WatchApiPath(ids)).0;
    if a.Ok? && !a.value.titleName.NameNull? {
      WatchRecordShape(baseUrl, url, ids, a.value);
    }
  }

  /** The watch record built from a reply that describes an episode of a
      `"tv"` title, for that episode's watch URL, is the episode's record. */
  lemma WatchRecordOfEpisode(baseUrl: string, titleId: string, episodeId: string, titleName: string,
                             season: int, episode: int, episodeName: string, p: Props)
    requires season != 0 && episode != 0
    requires p.titleType == Some("tv") && TitleNameOf(p.titleName) == Some(titleName)
    requires p.episode == Some(EpisodeInfo(Some(season), Some(episode), episodeName))
    ensures var m := EpisodeRecord(baseUrl, titleId, episodeId, titleName, season, episode, episodeName);
      WatchRecord(baseUrl, m.url, WatchIds(titleId, Some(episodeId)), p) == m
  {
  }

  /** Re-extracting the watch URL an episode record stores, with a reply
      that describes the same episode of a `"tv"` title, gives back that
      very record. */
  lemma WatchOfEpisodeRecord(baseUrl: string, cached: Option<string>, web: Web, titleId: string, episodeId: string,
                             titleName: string, season: int, episode: int, episodeName: string)
    requires NoMatchStart(baseUrl + "/it", 'w')
    requires titleId != [] && AllDigits(titleId) && episodeId != [] && AllDigits(episodeId)
    requires season != 0 && episode != 0
    requires var a := InertiaStep(baseUrl, cached, web, WatchEpisodePath(titleId, episodeId)).0;
      a.Ok? && a.value.titleType == Some("tv") && TitleNameOf(a.value.titleName) == Some(titleName)
      && a.value.episode == Some(EpisodeInfo(Some(season), Some(episode), episodeName))
    ensures var m := EpisodeRecord(baseUrl, titleId, episodeId, titleName, season, episode, episodeName);
      var w := WatchStep(baseUrl, cached, web, m.url).0;
      w.Some? ==> w.value == m
  {
    var ids := WatchIds(titleId, Some(episodeId));
    var url := baseUrl + WatchEpisodePath(titleId, episodeId);
    EpisodeUrlRoundTrip(baseUrl, titleId, episodeId);
    assert WatchMatch(url) == Some(ids);
    WatchApiPathOfEpisode(titleId, episodeId);
    var a := InertiaStep(baseUrl, cached, web, WatchApiPath(ids)).0;
    WatchRecordOfEpisode(baseUrl, titleId, episodeId, titleName, season, episode, episodeName, a.value);
  }

  // ---- dispatch ----

  /** `extract`: `/season-` is tested first, then `/watch/`. */
  function ExtractStep(baseUrl: string, cached: Option<string>, web: Web, url: string)
    : (r: (Outcome<Option<Info>>, Option<string>))
    ensures Truthy(cached) ==> r.1 == cached
    ensures r.0.Ok? && r.0.value.Some? && r.0.value.value.VideoInfo? ==>
      r.0.value.value.record.url == url && r.0.value.value.record.baseUrl == baseUrl
  {
    if Contains(url, "/season-") then
      var s := SeasonStep(baseUrl, cached, web, url);
      (if s.0.Raised? then Raised else if s.0.value.None? then Ok(None) else Ok(Some(PlaylistInfo(s.0.value.value))), s.1)
    else if Contains(url, "/watch/") then
      var w := WatchStep(baseUrl, cached, web, url);
      (Ok(if w.0.Some? then Some(VideoInfo(w.0.value)) else None), w.1)
    else (Ok(None), cached)
  }

  /** A URL that neither pattern accepts yields nothing, whatever the site
      would answer, and leaves the cache alone. A URL holding `/season-` is
      handled as a season even when it also names a watch page, and yields
      nothing when the season pattern rejects it; otherwise a URL holding
      `/watch/` gets the watch extraction. */
  lemma DispatchOrder(baseUrl: string, cached: Option<string>, web: Web, url: string)
    ensures SeasonMatch(url).None? && WatchMatch(url).None? ==> ExtractStep(baseUrl, cached, web, url) == (Ok(None), cached)
    ensures Contains(url, "/season-") ==>
      ExtractStep(baseUrl, cached, web, url).1 == SeasonStep(baseUrl, cached, web, url).1
      && (ExtractStep(baseUrl, cached, web, url).0.Raised? <==> SeasonStep(baseUrl, cached, web, url).0.Raised?)
      && (ExtractStep(baseUrl, cached, web, url).0.Ok? && ExtractStep(baseUrl, cached, web, url).0.value.Some?
          ==> ExtractStep(baseUrl, cached, web, url).0.value.value.PlaylistInfo?)
    ensures Contains(url, "/season-") && SeasonMatch(url).None? ==> ExtractStep(baseUrl, cached, web, url) == (Ok(None), cached)
    ensures !Contains(url, "/season-") && Contains(url, "/watch/") ==>
      ExtractStep(baseUrl, cached, web, url)
      == (Ok(if WatchStep(baseUrl, cached, web, url).0.Some? then Some(VideoInfo(WatchStep(baseUrl, cached, web, url).0.value)) else None),
          WatchStep(baseUrl, cached, web, url).1)
    ensures SeasonMatch(url).Some? ==>
      ExtractStep(baseUrl, cached, web, url).1 == SeasonStep(baseUrl, cached, web, url).1
      && (ExtractStep(baseUrl, cached, web, url).0.Raised? <==> SeasonStep(baseUrl, cached, web, url).0.Raised?)
      && (ExtractStep(baseUrl, cached, web, url).0.Ok? && ExtractStep(baseUrl, cached, web, url).0.value.Some?
          ==> ExtractStep(baseUrl, cached, web, url).0.value.value.PlaylistInfo?)
  {
    if SeasonMatch(url).Some? {
      SeasonMatchHasMarker(url);
    }
  }

  // ---- the just-in-time manifest and the static helpers ----

  /** `"; ".join(f"{k}={v}" ...)` over the session's cookies. */
  function CookieHeader(cookies: seq<(string, string)>): string
  {
    Join(seq(|cookies|, i requires 0 <= i < |cookies| => cookies[i].0 + "=" + cookies[i].1), "; ")
  }

  /** `get_fresh_m3u8`: a new extractor (no cached version) requests the
      watch URL relative to the base URL; every failure is `None`. */
  function FreshStep(baseUrl: string, watchUrl: string, web: Web, cookies: seq<(string, string)>): (r: Option<FreshM3u8>)
    ensures r.Some? ==> UrlParse(r.value.referer).Some? && r.value.origin == Origin(UrlParse(r.value.referer).value)
    ensures r.Some? ==> UrlParse(r.value.m3u8Url).Some? && r.value.userAgent == UserAgent
  {
    var a := InertiaStep(baseUrl, None, web, ReplaceAll(watchUrl, baseUrl, "")).0;
    if a.Raised? then None
    else
      var s := StreamFromProps(web, a.value);
      if s.Raised? || s.value.None? then None
      else
        var found := s.value.value;
        match UrlParse(found.0)
        case None => None
        case Some(p) => Some(FreshM3u8(found.1.m3u8Url, found.1.referer, Origin(p), UserAgent, CookieHeader(cookies)))
  }

  /** The watch URL a record stores is requested at the path it was built
      from, provided the base URL does not recur in that path. */
  lemma FreshRequestPath(baseUrl: string, path: string)
    requires baseUrl != [] && !Contains(path, baseUrl)
    ensures ReplaceAll(baseUrl + path, baseUrl, "") == path
  {
    ReplaceLeadingOccurrence(baseUrl, path);
    ReplaceAbsent(path, baseUrl, "");
  }

  /** `can_extract`: the lower-cased hostname holds "streamingcommunity";
      a URL `urlparse` rejects is `false`. */
  function CanExtract(url: string): bool
  {
    match UrlParse(url)
    case None => false
    case Some(p) => Contains(AsciiLower(Default(Hostname(p.netloc), "")), "streamingcommunity")
  }

  /** The base URL `extract_info` derives passes the host test exactly when
      the URL does. */
  lemma CanExtractOrigin(url: string)
    requires UrlParse(url).Some? && UrlParse(url).value.scheme != []
    ensures CanExtract(Origin(UrlParse(url).value)) == CanExtract(url)
  {
    OriginParses(url);
  }

  /** `extract_info`: a new extractor on `scheme://netloc`; a raise is `None`. */
  function ExtractInfoStep(web: Web, url: string): (r: Option<Info>)
    ensures r.Some? ==> UrlParse(url).Some?
    ensures r.Some? && r.value.VideoInfo? ==>
      r.value.record.url == url && r.value.record.baseUrl == Origin(UrlParse(url).value)
  {
    match UrlParse(url)
    case None => None
    case Some(p) =>
      var e := ExtractStep(Origin(p), None, web, url).0;
      if e.Raised? then None else e.value
  }

  /** The extractor object: its base URL and the cached site version. */
  class Extractor {
    const baseUrl: string
    var version: Option<string>

    constructor(baseUrl: string)
      ensures this.baseUrl == baseUrl && version == None
    {
      this.baseUrl := baseUrl;
      version := None;
    }

    /** `get_version`: a cached non-empty version is returned without a
        request; otherwise the landing page decides and its payload's
        version, whatever it is, replaces the cache. */
    method GetVersion(landing: Landing) returns (r: Outcome<Option<string>>)
      modifies this
      ensures r == VersionStep(old(version), landing).0 && version == VersionStep(old(version), landing).1
      ensures Truthy(old(version)) ==> r == Ok(old(version)) && version == old(version)
    {
      if Truthy(version) {
        return Ok(version);
      }
      match landing
      case LandingFailed => r := Raised;
      case NoPageData => r := Ok(None);
      case PageData(v) =>
        version := v;
        r := Ok(version);
    }

    /** `_inertia_get`: raises without a non-empty version. */
    method InertiaGet(web: Web, path: string) returns (r: Outcome<Props>)
      modifies this
      ensures r == InertiaStep(baseUrl, old(version), web, path).0 && version == InertiaStep(baseUrl, old(version), web, path).1
      ensures r.Ok? ==> Truthy(version)
    {
      var v := GetVersion(web.landing);
      if v.Raised? || !Truthy(v.value) || baseUrl + path !in web.api {
        return Raised;
      }
      r := Ok(web.api[baseUrl + path]);
    }

    method GetM3u8FromEmbed(web: Web, embedUrl: string) returns (r: Outcome<Option<M3u8>>)
      ensures r == M3u8FromEmbed(web, embedUrl)
    {
      if embedUrl !in web.pages || !web.pages[embedUrl].ok {
        return Raised;
      }
      r := ScanScripts(web.pages[embedUrl].scripts, embedUrl);
    }

    /** Embed page, iframe, manifest: the steps shared by the episode, watch
        and fresh-manifest paths. */
    method StreamOf(web: Web, props: Props) returns (r: Outcome<Option<(string, M3u8)>>)
      ensures r == StreamFromProps(web, props)
    {
      if !Truthy(props.embedUrl) {
        return Ok(None);
      }
      var embedUrl := props.embedUrl.value;
      if embedUrl !in web.pages {
        return Raised;
      }
      var iframe := web.pages[embedUrl].iframeSrc;
      if !Truthy(iframe) {
        return Ok(None);
      }
      var m := GetM3u8FromEmbed(web, iframe.value);
      match m
      case Raised => r := Raised;
      case Ok(None) => r := Ok(None);
      case Ok(Some(found)) => r := Ok(Some((iframe.value, found)));
    }

    method ExtractEpisode(web: Web, titleId: string, episodeId: string, titleName: Option<string>,
                          season: int, episode: int, episodeName: string) returns (r: Option<MediaRecord>)
      modifies this
      ensures r == EpisodeStep(baseUrl, old(version), web, titleId, episodeId, titleName, season, episode, episodeName).0
      ensures version == EpisodeStep(baseUrl, old(version), web, titleId, episodeId, titleName, season, episode, episodeName).1
    {
      var reply := InertiaGet(web, WatchEpisodePath(titleId, episodeId));
      if reply.Raised? {
        return None;
      }
      var stream := StreamOf(web, reply.value);
      if stream.Ok? && stream.value.Some? && titleName.Some? {
        r := Some(EpisodeRecord(baseUrl, titleId, episodeId, titleName.value, season, episode, episodeName));
      } else {
        r := None;
      }
    }

    /** One turn of the season loop: `extract_episode` on a formattable
        entry, with a version already cached, adding its record, if any, to
        the entries of the episodes before it. */
    method CollectOne(web: Web, ids: SeasonIds, titleName: Option<string>, episodes: seq<EpisodeEntry>,
                      i: nat, entries: seq<MediaRecord>) returns (next: seq<MediaRecord>)
      requires Truthy(version) && i < |episodes| && Formattable(episodes[i])
      requires SeasonEntries(baseUrl, version, web, ids, titleName, episodes[..i]) == Ok(entries)
      modifies this
      ensures SeasonEntries(baseUrl, old(version), web, ids, titleName, episodes[..i + 1]) == Ok(next)
      ensures version == old(version)
    {
      var ep := episodes[i];
      var info := ExtractEpisode(web, ids.titleId, EpisodeIdString(ep.id), titleName, ids.season,
        ep.number.value, ep.name.value);
      assert info == EpisodeResult(baseUrl, old(version), web, ids, titleName, ep);
      SeasonEntriesStep(baseUrl, old(version), web, ids, titleName, episodes, i);
      next := if info.Some? then entries + [info.value] else entries;
    }

    /** The loop of `extract_season` over the season's episodes, run with
        a version already cached. */
    method CollectEntries(web: Web, ids: SeasonIds, titleName: Option<string>, episodes: seq<EpisodeEntry>)
      returns (r: Outcome<seq<MediaRecord>>)
      requires Truthy(version)
      modifies this
      ensures r == SeasonEntries(baseUrl, old(version), web, ids, titleName, episodes)
      ensures version == old(version)
    {
      ghost var v := version;
      var entries: seq<MediaRecord> := [];
      var i := 0;
      assert episodes[..0] == [];
      while i < |episodes|
        invariant 0 <= i <= |episodes|
        invariant version == v
        invariant SeasonEntries(baseUrl, v, web, ids, titleName, episodes[..i]) == Ok(entries)
      {
        var ep := episodes[i];
        if ep.number.None? || ep.name.None? {
          SeasonEntriesRaised(baseUrl, v, web, ids, titleName, episodes, i);
          return Raised;
        }
        entries := CollectOne(web, ids, titleName, episodes, i, entries);
        i := i + 1;
      }
      assert episodes[..i] == episodes;
      r := Ok(entries);
    }

    /** `extract_season`, with its loop over the season's episodes. */
    method ExtractSeason(web: Web, url: string) returns (r: Outcome<Option<Playlist>>)
      modifies this
      ensures r == SeasonStep(baseUrl, old(version), web, url).0 && version == SeasonStep(baseUrl, old(version), web, url).1
    {
      var m := SeasonMatch(url);
      if m.None? {
        return Ok(None);
      }
      var ids := m.value;
      var titleData := InertiaGet(web, TitleApiPath(ids));
      if titleData.Raised? {
        return Raised;
      }
      var titleName := TitleNameOf(titleData.value.titleName);
      var seasonData := InertiaGet(web, SeasonApiPath(ids));
      if seasonData.Raised? {
        return Raised;
      }
      var collected := CollectEntries(web, ids, titleName, seasonData.value.episodes);
      if collected.Raised? {
        return Raised;
      }
      var entries := collected.value;
      if entries == [] {
        return Ok(None);
      }
      r := Ok(Some(SeasonPlaylistOf(url, ids, titleName, entries)));
    }

    method ExtractWatch(web: Web, url: string) returns (r: Option<MediaRecord>)
      modifies this
      ensures r == WatchStep(baseUrl, old(version), web, url).0 && version == WatchStep(baseUrl, old(version), web, url).1
    {
      var m := WatchMatch(url);
      if m.None? {
        return None;
      }
      var reply := InertiaGet(web, WatchApiPath(m.value));
      if reply.Raised? {
        return None;
      }
      var stream := StreamOf(web, reply.value);
      if stream.Ok? && stream.value.Some? && !reply.value.titleName.NameNull? {
        r := Some(WatchRecord(baseUrl, url, m.value, reply.value));
      } else {
        r := None;
      }
    }

    /** `extract`. An unsupported URL makes no request. */
    method Extract(web: Web, url: string) returns (r: Outcome<Option<Info>>)
      modifies this
      ensures r == ExtractStep(baseUrl, old(version), web, url).0 && version == ExtractStep(baseUrl, old(version), web, url).1
      ensures !Contains(url, "/season-") && !Contains(url, "/watch/") ==> r == Ok(None) && version == old(version)
    {
      if Contains(url, "/season-") {
        var s := ExtractSeason(web, url);
        r := if s.Raised? then Raised else if s.value.None? then Ok(None) else Ok(Some(PlaylistInfo(s.value.value)));
      } else if Contains(url, "/watch/") {
        var w := ExtractWatch(web, url);
        r := Ok(if w.Some? then Some(VideoInfo(w.value)) else None);
      } else {
        r := Ok(None);
      }
    }

    /** `get_fresh_m3u8`. */
    static method GetFreshM3u8(baseUrl: string, watchUrl: string, web: Web, cookies: seq<(string, string)>)
      returns (r: Option<FreshM3u8>)
      ensures r == FreshStep(baseUrl, watchUrl, web, cookies)
    {
      var extractor := new Extractor(baseUrl);
      var reply := extractor.InertiaGet(web, ReplaceAll(watchUrl, baseUrl, ""));
      if reply.Raised? {
        return None;
      }
      var stream := extractor.StreamOf(web, reply.value);
      if stream.Raised? || stream.value.None? {
        return None;
      }
      var found := stream.value.value;
      var parsed := UrlParse(found.0);
      if parsed.None? {
        return None;
      }
      r := Some(FreshM3u8(found.1.m3u8Url, found.1.referer, Origin(parsed.value), UserAgent, CookieHeader(cookies)));
    }

    /** `extract_info`. */
    static method ExtractInfo(web: Web, url: string) returns (r: Option<Info>)
      ensures r == ExtractInfoStep(web, url)
    {
      var parsed := UrlParse(url);
      if parsed.None? {
        return None;
      }
      var extractor := new Extractor(Origin(parsed.value));
      var e := extractor.Extract(web, url);
      r := if e.Raised? then None else e.value;
    }
  }
}
