# StreamingCommunity extractor and Jellyfin NFO helpers, in Dafny

This project models two parts of the metube fork.

- **The StreamingCommunity extractor** (`app/extractors/streamingcommunity.py`). It turns a season or watch URL of the site into yt-dlp style records. It asks the site's Inertia API for page data, caching the site's `x-inertia-version` on the extractor object. It follows the episode's embed page to its player iframe. It reads the player's inline `masterPlaylist` script to build an HLS manifest URL that carries the authorisation token, the expiry and, when offered, the FHD flag. It also builds the just-in-time manifest request (`get_fresh_m3u8`), the host test (`can_extract`) and the static entry point (`extract_info`).
- **The Jellyfin NFO helpers** (`app/jellyfin_nfo_generator.py`). These derive the `.info.json` and `.nfo` sidecar paths, split yt-dlp's `YYYYMMDD` upload date, turn a duration in seconds into whole minutes, and list the `<movie>` children that `create_nfo_xml` writes, in order.

Modules:

- `Wrappers`: `Option` and `Outcome`. `Outcome` is either `Raised` or `Ok(v)`; `Raised` stands for an exception that escapes a call.
- `PyStr`: the Python `str` operations used, namely `in`, `find`, `rfind`, `replace`, `split`, `join`, ASCII `lower`, `str(int)`, `int(str)` and the `02d` format.
- `Utf8`: UTF-8 encoding, and decoding with replacement.
- `OrderedDict`: Python dicts, which keep insertion order.
- `UrlQuote`: `quote_plus`, `unquote_plus`, `parse_qsl`, `parse_qs` and `urlencode`.
- `UrlComponents`: `urlsplit`, `urlparse`, `urlunsplit`, `urlunparse` and `hostname`, following CPython 3.12.
- `Embed`: the manifest URL built from an embed page's scripts.
- `StreamingCommunity`: the extractor. This includes the class `Extractor`, whose `version` field is the cache the source mutates.
- `NfoGenerator`: the NFO helpers. `CreateNfoElements` is the imperative builder, proved equal to the specification `NfoElements`.

The network is a value, `Web`. It holds the landing-page outcome, the Inertia replies by full URL and the HTML pages by URL. A URL missing from the map is a request that raises. Regular-expression searches, `json.loads` and BeautifulSoup lookups are represented by what they produce. For example, a `Script` holds the captured token, the captured expiry, the `window.streams` array, the `url:` literal and the `canPlayFHD` flag.

## Model

| member | source | states |
|---|---|---|
| StreamingCommunity.Extractor.constructor | app/extractors/streamingcommunity.py:24-28 | A new extractor holds the given base URL and no cached version. |
| StreamingCommunity.VersionStep | app/extractors/streamingcommunity.py:30-44 | A non-empty cached version is returned without consulting the site and stays cached. A non-empty version read from the landing page becomes the new cache. |
| StreamingCommunity.Extractor.GetVersion | app/extractors/streamingcommunity.py:30-44 | The method's result and its new `version` field are those of `VersionStep`. A cached non-empty version is returned and the field is left unchanged. |
| StreamingCommunity.InertiaStep | app/extractors/streamingcommunity.py:46-55 | An API reply is returned only when a non-empty version is known. It is exactly the site's reply for `base_url + path`. A cached version is never replaced. |
| StreamingCommunity.Extractor.InertiaGet | app/extractors/streamingcommunity.py:46-55 | The method's result and new cache are those of `InertiaStep`. After a reply, the cache holds a non-empty version. |
| StreamingCommunity.StreamFromProps | app/extractors/streamingcommunity.py:143-159 | When the embed page's iframe yields a manifest, the manifest's referer is the iframe `src` and its URL is one `urlparse` accepts. |
| StreamingCommunity.Extractor.StreamOf | app/extractors/streamingcommunity.py:143-159 | The embed-URL, iframe and manifest steps return what `StreamFromProps` specifies. |
| StreamingCommunity.Extractor.GetM3u8FromEmbed | app/extractors/streamingcommunity.py:57-127 | Returns the outcome of a status-checked fetch of the embed page followed by the script scan `FromScripts`. |
| StreamingCommunity.EpisodeTitleForm | app/extractors/streamingcommunity.py:166-168 | For season and episode numbers from 0 to 99, the title is the series name, then ` S`, two digits that read back as the season, `E`, and two digits that read back as the episode. ` - name` follows exactly when the episode name is non-empty. |
| StreamingCommunity.EpisodeStep | app/extractors/streamingcommunity.py:139-191 | A record is produced only when the site answers for the episode's watch path and the series name is not `None`. A cached version survives. |
| StreamingCommunity.Extractor.ExtractEpisode | app/extractors/streamingcommunity.py:129-191 | The method's record and new cache are those of `EpisodeStep`. Every failure, raised or logged, is `None`. |
| StreamingCommunity.EpisodeStepRecord | app/extractors/streamingcommunity.py:139-187 | A record exists exactly when the watch reply arrives, a manifest is found and the series name is not `None`. Its id is `sc_{title}_{episode}`, its title is `EpisodeTitle`'s, and it stores `base + /it/watch/{title}?e={episode}`. It carries the season, episode number, episode name, series and base URL. |
| StreamingCommunity.SeasonPathMatches | app/extractors/streamingcommunity.py:195-202 | For a URL built as `/titles/{id}-{slug}/season-{n}` after a prefix where the pattern cannot start, the season pattern recovers exactly that id, slug and number. |
| StreamingCommunity.SeasonMatchHasMarker | app/extractors/streamingcommunity.py:195 | Any URL the season pattern accepts contains `/season-`, the marker `extract` dispatches on. |
| StreamingCommunity.EpisodeUrlRoundTrip | app/extractors/streamingcommunity.py:174 | The watch URL stored in an episode record is accepted by the watch pattern, which recovers the record's title id and episode id. |
| StreamingCommunity.WatchMatchHasMarker | app/extractors/streamingcommunity.py:246 | Any URL the watch pattern accepts contains `/watch/`. |
| StreamingCommunity.SuccessesMembers | app/extractors/streamingcommunity.py:226-227 | A record is in the collected list exactly when some episode produced it. |
| StreamingCommunity.SuccessesOneFailure | app/extractors/streamingcommunity.py:215-227 | When exactly one episode fails, the list has one fewer element. The records before and after the failure keep their order and shift by one. |
| StreamingCommunity.EntriesStep | app/extractors/streamingcommunity.py:216-227 | One more episode appends its record, when it has one, to the entries collected so far. |
| StreamingCommunity.SeasonEntriesExact | app/extractors/streamingcommunity.py:215-228 | A record is a playlist entry exactly when some listed episode's extraction produced it. |
| StreamingCommunity.SeasonEntriesStep | app/extractors/streamingcommunity.py:216-227 | After a prefix of formattable entries, one more formattable entry appends its record, when it has one, and otherwise leaves the list as it was. |
| StreamingCommunity.SeasonEntriesRaised | app/extractors/streamingcommunity.py:218-221 | An entry without a number or with a `null` name makes the log line raise, so the whole season raises. |
| StreamingCommunity.Extractor.CollectOne | app/extractors/streamingcommunity.py:216-227 | One turn of the loop. It extends the entries of the episodes before it exactly as `SeasonEntries` does for the longer prefix, and keeps the cached version. |
| StreamingCommunity.Extractor.CollectEntries | app/extractors/streamingcommunity.py:215-228 | The loop returns `SeasonEntries`: the successful records in episode order, or `Raised` when any entry lacks a number or has a null name. The cached version is unchanged. |
| StreamingCommunity.NullNameNoEntries | app/extractors/streamingcommunity.py:164 | With a `null` series name, every episode fails, so the season collects no entries. |
| StreamingCommunity.SeasonNullName | app/extractors/streamingcommunity.py:204-230 | A season whose title reply has a `null` name never yields a playlist: it raises or returns `None`. |
| StreamingCommunity.SeasonStep | app/extractors/streamingcommunity.py:193-242 | A playlist is returned only for a URL the season pattern accepts, and never with an empty entry list. A cached version survives. |
| StreamingCommunity.Extractor.ExtractSeason | app/extractors/streamingcommunity.py:193-242 | The method's playlist and new cache are those of `SeasonStep`. |
| StreamingCommunity.SeasonStepPlaylist | app/extractors/streamingcommunity.py:204-242 | Either reply raising makes the season raise, and so do entries that raise. No entries give `None`. Otherwise the playlist is `sc_{title}_s{n}`, titled `{name} Season {n}`, for the season URL. It holds exactly the entries `SeasonEntries` collects, and the cache is the one after the second reply. |
| StreamingCommunity.WatchNullName | app/extractors/streamingcommunity.py:263-292 | A watch reply whose `title.name` is `null` yields no record: `re.sub` raises on it and the `except` returns `None`. |
| StreamingCommunity.WatchStep | app/extractors/streamingcommunity.py:244-324 | A record is returned only for a URL the watch pattern accepts. It stores that URL and the extractor's base URL. |
| StreamingCommunity.Extractor.ExtractWatch | app/extractors/streamingcommunity.py:244-324 | The method's record and new cache are those of `WatchStep`. |
| StreamingCommunity.WatchRecordShape | app/extractors/streamingcommunity.py:294-316 | For a `"tv"` title with a truthy season and episode number, the id takes the URL's episode parameter, or else the number, and the title is `EpisodeTitle`'s. Otherwise the id is `sc_{title}` and the title is the bare name. The series is set only for `"tv"`. |
| StreamingCommunity.WatchRecordFields | app/extractors/streamingcommunity.py:259-320 | A record exists exactly when the reply arrives, a manifest is found and the series name is not `None`. Its fields then follow the two cases of `WatchRecordShape`. |
| StreamingCommunity.WatchOfEpisodeRecord | app/extractors/streamingcommunity.py:294-316 | Re-extracting the URL an episode record stores, with a reply describing that episode of a `"tv"` title, gives back the same record: the same id, title, numbers and series. |
| StreamingCommunity.ExtractStep | app/extractors/streamingcommunity.py:326-334 | A video result stores the requested URL and the base URL. A cached version survives dispatch. |
| StreamingCommunity.DispatchOrder | app/extractors/streamingcommunity.py:326-334 | A URL that contains `/season-` is handled as a season, even when it also contains `/watch/`: same cache, raises exactly when the season extraction does, and a result is a playlist. Such a URL that the season pattern rejects yields `None` with the cache untouched. Otherwise a URL that contains `/watch/` gets exactly the watch extraction's record and cache. A URL that neither pattern accepts yields `None` and leaves the cache alone. |
| StreamingCommunity.Extractor.Extract | app/extractors/streamingcommunity.py:326-334 | Returns what `ExtractStep` specifies. A URL with neither marker returns `None` without touching the cache. |
| StreamingCommunity.FreshStep | app/extractors/streamingcommunity.py:337-414 | A fresh manifest carries the Chrome user agent and the iframe `src` as its referer. Its `Origin` is `scheme://netloc` of that `src`, and its URL is one `urlparse` accepts. |
| StreamingCommunity.FreshRequestPath | app/extractors/streamingcommunity.py:347 | When the path does not contain the base URL, removing the base URL from a stored watch URL gives back the path the record was built from. |
| StreamingCommunity.Extractor.GetFreshM3u8 | app/extractors/streamingcommunity.py:337-414 | Returns what `FreshStep` specifies. |
| StreamingCommunity.CanExtractOrigin | app/extractors/streamingcommunity.py:417-424 | For a URL with a scheme, the host test accepts `scheme://netloc` exactly when it accepts the URL itself. |
| StreamingCommunity.ExtractInfoStep | app/extractors/streamingcommunity.py:427-440 | A result exists only for a URL `urlparse` accepts. A video result stores the URL and, as base URL, the URL's `scheme://netloc`. |
| StreamingCommunity.Extractor.ExtractInfo | app/extractors/streamingcommunity.py:427-440 | Returns what `ExtractInfoStep` specifies. |
| Embed.EntryUrl | app/extractors/streamingcommunity.py:84-89 | Reading one `window.streams` entry succeeds exactly when the entry is an object whose `url` is a string or absent. |
| Embed.PickStream | app/extractors/streamingcommunity.py:83-89 | The scan over `window.streams`, with its fallback to the first entry, computes `StreamsLayer`. |
| Embed.FirstActiveWins | app/extractors/streamingcommunity.py:83-86 | The first active entry with a non-empty URL supplies the un-escaped stream URL, wherever it sits. |
| Embed.NoActiveFirstEntry | app/extractors/streamingcommunity.py:87-89 | With no active entry, the first entry's URL is used. |
| Embed.CandidateLayers | app/extractors/streamingcommunity.py:77-98 | A non-empty URL from the streams layer is the candidate. When the streams layer yields nothing and a `url:` literal was captured, the candidate is that literal un-escaped, and it is non-empty. The script yields no URL only when both yield nothing. The streams layer raising is the only way to raise. |
| Embed.UnescapeRemovesEscapes | app/extractors/streamingcommunity.py:85 | When the raw URL holds no `\\/`, un-escaping leaves no `\/` in the result. |
| Embed.UnescapeKeepsDoubled | app/extractors/streamingcommunity.py:85 | The input `\\/` un-escapes to `\/`, so the condition above is needed. |
| Embed.CandidateUnescaped | app/extractors/streamingcommunity.py:85-97 | Whichever of the three sources supplied the stream URL, it holds no `\/` unless a raw string held `\\/`. |
| Embed.BuildParams | app/extractors/streamingcommunity.py:104-117 | The copy loop and the three overlays compute `MergedParams`. |
| Embed.MergedLookup | app/extractors/streamingcommunity.py:104-117 | `expires` and `token` map to the captured values when captured, and `h` maps to `1` when FHD is offered. Every other name maps to its first value in the stream URL's query. |
| Embed.MergedOrder | app/extractors/streamingcommunity.py:107-117 | The parameters have distinct names. The stream URL's own names come first, in their original order, followed only by `h`, `token` and `expires`. |
| Embed.MergedNonEmpty | app/extractors/streamingcommunity.py:107-117 | When the token and expiry captures are non-empty, every parameter value is non-empty. |
| Embed.MergeIdempotent | app/extractors/streamingcommunity.py:104-119 | Merging the token, expiry and FHD flag into an already merged, encoded query gives the same parameters. |
| Embed.SynthesizeKeepsComponents | app/extractors/streamingcommunity.py:103-119 | Only the query changes. The rebuilt URL parses to the stream URL's scheme, network location, path, parameters and fragment, with the encoded merged query. |
| Embed.SynthesizedQuery | app/extractors/streamingcommunity.py:104-119 | The rebuilt URL's query parses back to exactly the merged parameters. |
| Embed.SynthesizeIdempotent | app/extractors/streamingcommunity.py:103-119 | Rebuilding a rebuilt manifest URL with the same token, expiry and FHD flag gives the same URL. |
| Embed.ScanScripts | app/extractors/streamingcommunity.py:66-127 | The loop over the page's scripts computes `FromScripts`. The first script that holds `masterPlaylist` and yields a stream URL decides the result. |
| Embed.FromScriptsResult | app/extractors/streamingcommunity.py:119-125 | A returned manifest has the embed URL as its referer and a URL that `urlparse` accepts. |
| UrlQuote.QuotePlusRoundTrip | app/extractors/streamingcommunity.py:119 | `unquote_plus(quote_plus(s)) == s` for every string, through UTF-8. |
| UrlQuote.ParseQslUrlEncode | app/extractors/streamingcommunity.py:104-119 | When every value is non-empty, `parse_qsl(urlencode(d))` returns the items of `d`, in order. |
| UrlQuote.GroupHeads | app/extractors/streamingcommunity.py:104-109 | Each list `parse_qs` returns is non-empty and its names are distinct. The first values, in name order, are the first occurrence of each name in `parse_qsl`. |
| UrlQuote.FirstOccurrencesLookup | app/extractors/streamingcommunity.py:107-109 | The first-value dict has distinct names, and maps each name to its first value in the query. |
| UrlQuote.FirstOccurrencesOrder | app/extractors/streamingcommunity.py:107-109 | The first-value dict holds only names of the query, in order of first occurrence. |
| UrlQuote.ParseFieldsNonEmpty | app/extractors/streamingcommunity.py:104 | `parse_qs` drops fields with blank values. |
| UrlQuote.UrlEncodeChars | app/extractors/streamingcommunity.py:119 | An encoded query holds only unreserved characters, `+`, `%`, `=` and `&`. |
| Utf8.DecodeEncode | app/extractors/streamingcommunity.py:119 | Decoding the UTF-8 encoding of a string gives the string back. |
| UrlComponents.SplitWellFormed | app/extractors/streamingcommunity.py:103 | Every result of `urlsplit` satisfies `WellFormed`. |
| UrlComponents.UnsplitSplit | app/extractors/streamingcommunity.py:119 | `urlsplit(urlunsplit(s)) == s` for every well-formed split result. |
| UrlComponents.ParamsRejoin | app/extractors/streamingcommunity.py:119 | Joining and re-splitting the `;` parameters keeps a parse result unchanged. |
| UrlComponents.ReplaceQueryRoundTrip | app/extractors/streamingcommunity.py:119 | Replacing a parsed URL's query with one free of `#`, tabs and line breaks, then unparsing and parsing again, gives the replaced result. |
| UrlComponents.OriginParses | app/extractors/streamingcommunity.py:374-375 | `scheme://netloc` of a URL with a scheme parses back to the same scheme and network location, with nothing else. |
| UrlComponents.Hostname | app/extractors/streamingcommunity.py:421 | The host name exists exactly when the host part of the network location is non-empty. It holds no `@`. |
| UrlComponents.UserInfoIgnored | app/extractors/streamingcommunity.py:421 | User information before the last `@` does not change the host. |
| NfoGenerator.SplitExtParts | app/jellyfin_nfo_generator.py:23 | `splitext` gives a base and an extension that concatenate to the path. A non-empty extension starts with the file name's last dot and holds no further dot or `/`. The extension is empty exactly when that dot is missing or only dots precede it in the file name. |
| NfoGenerator.SidecarPaths | app/jellyfin_nfo_generator.py:19-24 | The info path is the media path's base followed by `.info.json`. The NFO path is the same base followed by `.nfo`. |
| NfoGenerator.NfoPathSplits | app/jellyfin_nfo_generator.py:132-133 | The NFO path splits back into the media base and `.nfo`, so it leads to the same `.info.json` as the media file. |
| NfoGenerator.ParseUploadDate | app/jellyfin_nfo_generator.py:27-41 | A date of a length other than 8 gives two empty strings. An 8-character date gives its first four characters as the year, and a premiere date `YYYY-MM-DD` whose digits are the input's. |
| NfoGenerator.MinutesOf | app/jellyfin_nfo_generator.py:51 | Division by 60 truncates toward zero: the bounds are stated for positive and negative seconds. |
| NfoGenerator.SecondsToMinutes | app/jellyfin_nfo_generator.py:44-53 | The runtime text is empty exactly when there is no duration. |
| NfoGenerator.MinutesRoundTrip | app/jellyfin_nfo_generator.py:51 | The runtime text reads back as the truncated number of minutes. |
| NfoGenerator.FirstTags | app/jellyfin_nfo_generator.py:93 | At most the first twenty tags are kept, as a prefix of the list. |
| NfoGenerator.NonEmptyMembers | app/jellyfin_nfo_generator.py:94 | Exactly the non-empty tags are kept. When no tag is empty, none is dropped. |
| NfoGenerator.TitleFirst | app/jellyfin_nfo_generator.py:60-64 | The document starts with `title` and then `originaltitle`, both holding the title. An absent title reads as "Unknown Title". |
| NfoGenerator.TitleOnce | app/jellyfin_nfo_generator.py:62-63 | Exactly one `title` element, holding the title. |
| NfoGenerator.OriginalTitleOnce | app/jellyfin_nfo_generator.py:64 | Exactly one `originaltitle` element, holding the title. |
| NfoGenerator.YearOnce | app/jellyfin_nfo_generator.py:69-72 | One `year` element with the first four characters of an 8-character upload date, and none otherwise. |
| NfoGenerator.PremieredOnce | app/jellyfin_nfo_generator.py:69-74 | One `premiered` element for an 8-character upload date, and none otherwise. |
| NfoGenerator.StudioOnce | app/jellyfin_nfo_generator.py:76-78 | One `studio` element holding the uploader, or the channel when the uploader is absent, exactly when that text is non-empty. |
| NfoGenerator.DirectorOnce | app/jellyfin_nfo_generator.py:76-79 | The `director` elements are exactly the `studio` elements' texts. |
| NfoGenerator.UniqueIdOnce | app/jellyfin_nfo_generator.py:81-85 | One `uniqueid` element holding the id exactly when the id is non-empty. |
| NfoGenerator.WebsiteOnce | app/jellyfin_nfo_generator.py:87-89 | One `website` element holding the page URL exactly when the page URL is non-empty. |
| NfoGenerator.TagsLimited | app/jellyfin_nfo_generator.py:91-95 | The `tag` elements are the non-empty tags among the first twenty, in order. There are at most twenty, and a text is a tag's exactly when it is a non-empty tag among the first twenty. |
| NfoGenerator.RuntimeOnce | app/jellyfin_nfo_generator.py:97-100 | One `runtime` element, the duration in minutes, exactly when a duration is given. |
| NfoGenerator.KindTexts | app/jellyfin_nfo_generator.py:60-100 | For every element name, the texts written under it, in document order. |
| NfoGenerator.AppendTags | app/jellyfin_nfo_generator.py:91-95 | The tag loop appends exactly `TagElements` of the first twenty tags. |
| NfoGenerator.CreateNfoElements | app/jellyfin_nfo_generator.py:56-100 | The statement-by-statement builder produces `NfoElements`, the children of `<movie>` in the order the source appends them. |

## Left out

- HTTP, sessions and impersonation are not modelled. Each request is a lookup in `Web`, and a missing URL raises. The session's cookies are a parameter of `get_fresh_m3u8`.
- The regular expressions, `json.loads` and BeautifulSoup are not modelled. Their results are inputs: the `Script`, `StreamEntry`, `Props` and `Page` datatypes. The URL patterns `/titles/(\d+)-([^/]+)/season-(\d+)` and `/watch/(\d+)(?:\?e=(\d+))?` are modelled, with ASCII digits standing for `\d`.
- Logging is left out. The computed but unused `safe_name` values (`app/extractors/streamingcommunity.py:164`, `:232`, `:292`) are left out.
- The test request in `get_fresh_m3u8` (`app/extractors/streamingcommunity.py:386-401`) is left out. It is logged and its failures are swallowed, so it cannot change the result.
- The constant fields of the returned records are not carried by `MediaRecord`: `ext`, `_type`, `extractor`, `extractor_key` and the extraction flag.
- Ill-typed JSON is not modelled: an episode number that is not an integer, a `url` that is a non-string truthy value inside the JSON-decoding `try`, or a `props.title` that is `null` or not an object. An integer from a `dict.get` is an `Option<int>`. A `null` `title.name` is modelled (`NameField`). A `null` `title.type` behaves like an absent one, because both differ from `"tv"`.
- StreamingCommunity.WatchRecord: a `null` episode name in a watch reply is read as "". `if ep_name:` is false for both, so the title is the same. Only the record's `episode` field differs: `None` in the source, "" in the model.
- StreamingCommunity.WatchRecord: a `null` `episode.season` object is read as an absent season. In the source `None.get("number")` (`app/extractors/streamingcommunity.py:272`) raises, and the `except` at `:322` returns `None`. The model returns a record with no season number.
- StreamingCommunity.SeasonStep: a `null` `loadedSeason` or `loadedSeason.episodes` cannot be represented: `Props.episodes` is a list. The source raises out of `extract_season` on it (`app/extractors/streamingcommunity.py:210-213`).
- StreamingCommunity.EpisodeResult: an entry without a number or with a `null` name gets no record. The loop raises before reaching such an entry, and `SeasonEntries` states that.
- StreamingCommunity.CanExtract: `str.lower` is modelled on ASCII letters only. The NFKC check `urlsplit` makes on non-ASCII network locations is not modelled.
- UrlComponents.UrlSplit: CPython 3.12 validates a bracketed host (`[...]`) as an IPv6 or IPvFuture address and raises `ValueError` otherwise; the model checks only that the brackets match. So `can_extract("http://[streamingcommunity]/")` is `false` in Python but true in the model, and a stream URL with such a host gets a manifest in the model where Python raises.
- Embed.UnescapeRemovesEscapes: the claim "no `\/` remains" holds only when the raw URL has no `\\/`. `UnescapeKeepsDoubled` is the input that shows it.
- Embed.MergedLookup: `h=1` appears when FHD is offered. When FHD is not offered, `h` keeps whatever value the stream URL's own query gave it.
- `create_nfo_xml`'s serialisation is left out (`app/jellyfin_nfo_generator.py:102-109`): `tostring`, minidom pretty-printing and blank-line removal. The model stops at the ordered list of children of `<movie>`.
- NfoGenerator.Get: a `null` field is written as no text, like "", because the serialiser writes both as an empty element.
- Tags in the info dict are strings, and a `null` tag list is empty. `str(tag)` of non-string tags is not modelled.
- NfoGenerator.MinutesOf: durations are integers. Floating-point durations and the rounding of `float(seconds)` for very large values are not modelled.
- `generate_nfo`'s file existence check, the JSON reading and file writing (`app/jellyfin_nfo_generator.py:112-159`) and `main` (`:162-168`) are I/O and left out. Only the derivation of the two paths is modelled.
