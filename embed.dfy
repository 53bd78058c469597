/** The manifest-URL logic of the extractor's embed-page step: choosing a
    stream candidate from the fields an inline `masterPlaylist` script
    yields, un-escaping it, merging its query with the authorisation
    parameters and rebuilding the URL. The regular-expression, JSON and HTML
    steps are represented by their results. */
module Embed {
  import opened Wrappers
  import opened PyStr
  import opened OrderedDict
  import opened UrlQuote
  import opened UrlComponents

  // ---- un-escaping ----

  /** `s.replace("\\/", "/")`: JSON-escaped slashes made plain. */
  function Unescape(s: string): string
  {
    ReplaceAll(s, "\\/", "/")
  }

  /** A backslash directly followed by a slash at `i`. */
  predicate EscapedSlashAt(s: string, i: int) {
    0 <= i && i + 1 < |s| && s[i] == '\\' && s[i + 1] == '/'
  }

  /** Two backslashes and a slash at `i`. */
  predicate DoubledEscapeAt(s: string, i: int) {
    0 <= i && i + 2 < |s| && s[i] == '\\' && s[i + 1] == '\\' && s[i + 2] == '/'
  }

  predicate NoEscapedSlash(s: string) {
    forall i :: 0 <= i < |s| ==> !EscapedSlashAt(s, i)
  }

  predicate NoDoubledEscape(s: string) {
    forall i :: 0 <= i < |s| ==> !DoubledEscapeAt(s, i)
  }

  lemma UnescapeNonEmpty(s: string)
    requires s != []
    ensures Unescape(s) != []
  {
  }

  lemma UnescapeHead(t: string)
    requires Unescape(t) != [] && Unescape(t)[0] == '/'
    ensures t != [] && (t[0] == '/' || EscapedSlashAt(t, 0))
  {
  }

  /** Un-escaping leaves no `\/` behind unless the input held `\\/`. */
  lemma {:induction false} UnescapeRemovesEscapes(s: string)
    requires NoDoubledEscape(s)
    ensures NoEscapedSlash(Unescape(s))
  {
    if s != [] {
      var out := Unescape(s);
      if StartsWith(s, "\\/") {
        var t := s[2..];
        assert NoDoubledEscape(t) by {
          forall i | 0 <= i < |t| ensures !DoubledEscapeAt(t, i) {
            assert !DoubledEscapeAt(s, i + 2);
          }
        }
        UnescapeRemovesEscapes(t);
        assert out == "/" + Unescape(t);
        forall i | 0 <= i < |out| ensures !EscapedSlashAt(out, i) {
          if i > 0 { assert !EscapedSlashAt(Unescape(t), i - 1); }
        }
      } else {
        var t := s[1..];
        assert NoDoubledEscape(t) by {
          forall i | 0 <= i < |t| ensures !DoubledEscapeAt(t, i) {
            assert !DoubledEscapeAt(s, i + 1);
          }
        }
        UnescapeRemovesEscapes(t);
        assert out == [s[0]] + Unescape(t);
        assert !DoubledEscapeAt(s, 0);
        forall i | 0 <= i < |out| ensures !EscapedSlashAt(out, i) {
          if i > 0 {
            assert !EscapedSlashAt(Unescape(t), i - 1);
          } else if EscapedSlashAt(out, 0) {
            UnescapeHead(t);
          }
        }
      }
    }
  }

  /** A doubled backslash before a slash survives as `\/`. */
  lemma UnescapeKeepsDoubled()
    ensures Unescape("\\\\/") == "\\/"
    ensures EscapedSlashAt(Unescape("\\\\/"), 0)
  {
    var s := "\\\\/";
    assert !StartsWith(s, "\\/");
    assert s[1..] == "\\/";
    assert StartsWith(s[1..], "\\/");
    assert s[1..][2..] == [];
  }

  // ---- the `window.streams` candidates ----

  /** The `url` member of a `window.streams` entry: a string, absent (read
      as ""), or anything else (null, a number, ...), on which `.replace`
      raises. */
  datatype UrlField = UrlString(value: string) | UrlMissing | UrlNotString

  /** An element of the `window.streams` array: an object with its `active`
      flag (its truthiness) and `url`, or something without `.get`. */
  datatype StreamEntry = StreamObject(active: bool, url: UrlField) | NotAnObject

  /** What the `window.streams` search and `json.loads` produced: no match,
      a match that is not JSON, or the decoded array. */
  datatype StreamsBlock = StreamsAbsent | StreamsUnparsable | StreamsList(entries: seq<StreamEntry>)

  /** `s.get("url", "").replace("\\/", "/")` on one entry. */
  function EntryUrl(e: StreamEntry): (r: Outcome<string>)
    ensures r.Ok? <==> e.StreamObject? && !e.url.UrlNotString?
  {
    match e
    case NotAnObject => Raised
    case StreamObject(_, UrlString(u)) => Ok(Unescape(u))
    case StreamObject(_, UrlMissing) => Ok("")
    case StreamObject(_, UrlNotString) => Raised
  }

  /** An entry at which the scan leaves the loop: by `break` on a truthy
      `active`, or by the exception `.get` raises on a non-object. */
  predicate Stops(e: StreamEntry) { e.NotAnObject? || e.active }

  function ScanStop(entries: seq<StreamEntry>): (k: nat)
    ensures k <= |entries|
    ensures k < |entries| ==> Stops(entries[k])
    ensures forall j :: 0 <= j < k ==> !Stops(entries[j])
  {
    if entries == [] || Stops(entries[0]) then 0 else 1 + ScanStop(entries[1..])
  }

  /** The URL the `window.streams` layer yields, "" standing for none: the
      first active entry's, or the first entry's when that is empty. */
  function StreamsLayer(block: StreamsBlock): Outcome<string>
  {
    match block
    case StreamsList(entries) =>
      var k := ScanStop(entries);
      var scanned := if k < |entries| then EntryUrl(entries[k]) else Ok("");
      if scanned.Raised? then Raised
      else if scanned.value == [] && entries != [] then EntryUrl(entries[0])
      else scanned
    case _ => Ok("")
  }

  /** The scan over `window.streams` with its fallback to the first entry. */
  method PickStream(entries: seq<StreamEntry>) returns (r: Outcome<string>)
    ensures r == StreamsLayer(StreamsList(entries))
  {
    var streamUrl := "";
    var i := 0;
    while i < |entries|
      invariant 0 <= i <= |entries|
      invariant forall j :: 0 <= j < i ==> !Stops(entries[j])
    {
      match entries[i]
      case NotAnObject =>
        return Raised;
      case StreamObject(active, _) =>
        if active {
          var u := EntryUrl(entries[i]);
          if u.Raised? {
            return Raised;
          }
          streamUrl := u.value;
          break;
        }
      i := i + 1;
    }
    if streamUrl == [] && |entries| > 0 {
      r := EntryUrl(entries[0]);
    } else {
      r := Ok(streamUrl);
    }
  }

  /** The first active entry wins wherever it sits. */
  lemma FirstActiveWins(entries: seq<StreamEntry>, k: nat, raw: string)
    requires k < |entries| && entries[k] == StreamObject(true, UrlString(raw)) && raw != []
    requires forall j :: 0 <= j < k ==> entries[j].StreamObject? && !entries[j].active
    ensures StreamsLayer(StreamsList(entries)) == Ok(Unescape(raw))
  {
    UnescapeNonEmpty(raw);
  }

  /** With no active entry the first entry's URL is used. */
  lemma NoActiveFirstEntry(entries: seq<StreamEntry>)
    requires entries != []
    requires forall j :: 0 <= j < |entries| ==> entries[j].StreamObject? && !entries[j].active
    ensures StreamsLayer(StreamsList(entries)) == EntryUrl(entries[0])
  {
    assert ScanStop(entries) == |entries|;
  }

  // ---- one inline script ----

  /** What the searches over one `<script>` produce: whether its text
      contains `masterPlaylist`, the `'token'` and `'expires'` captures, the
      `window.streams` block, the `url:` literal and the `window.canPlayFHD`
      flag. */
  datatype Script = Script(hasMarker: bool, token: Option<string>, expires: Option<string>,
                           streams: StreamsBlock, urlLiteral: Option<string>, canPlayFhd: bool)

  /** The patterns capture one or more characters. */
  predicate Captured(sc: Script) {
    (sc.token.Some? ==> sc.token.value != []) &&
    (sc.expires.Some? ==> sc.expires.value != []) &&
    (sc.urlLiteral.Some? ==> sc.urlLiteral.value != [])
  }

  /** The stream URL of a script, "" standing for none: the streams layer,
      else the un-escaped `url:` literal. */
  function CandidateUrl(sc: Script): Outcome<string>
  {
    match StreamsLayer(sc.streams)
    case Raised => Raised
    case Ok(u) =>
      if u != [] then Ok(u)
      else if sc.urlLiteral.Some? then Ok(Unescape(sc.urlLiteral.value))
      else Ok("")
  }

  /** The `url:` literal is consulted only when the streams layer yields
      nothing, and then supplies the candidate, un-escaped; the script
      yields nothing only when both are empty. */
  lemma CandidateLayers(sc: Script)
    requires Captured(sc)
    ensures StreamsLayer(sc.streams).Raised? <==> CandidateUrl(sc).Raised?
    ensures StreamsLayer(sc.streams).Ok? && StreamsLayer(sc.streams).value != [] ==>
      CandidateUrl(sc) == StreamsLayer(sc.streams)
    ensures StreamsLayer(sc.streams) == Ok("") && sc.urlLiteral.Some? ==>
      CandidateUrl(sc) == Ok(Unescape(sc.urlLiteral.value)) && CandidateUrl(sc).value != []
    ensures CandidateUrl(sc) == Ok("") <==> StreamsLayer(sc.streams) == Ok("") && sc.urlLiteral.None?
  {
    if sc.urlLiteral.Some? {
      UnescapeNonEmpty(sc.urlLiteral.value);
    }
  }

  /** Every raw URL string a script offers. */
  predicate RawUrlsClean(sc: Script) {
    (sc.urlLiteral.Some? ==> NoDoubledEscape(sc.urlLiteral.value)) &&
    (sc.streams.StreamsList? ==>
       forall j :: 0 <= j < |sc.streams.entries| ==>
         sc.streams.entries[j].StreamObject? && sc.streams.entries[j].url.UrlString? ==>
           NoDoubledEscape(sc.streams.entries[j].url.value))
  }

  /** Whichever layer produced it, the candidate holds no `\/` unless a raw
      string held `\\/`. */
  lemma CandidateUnescaped(sc: Script)
    requires RawUrlsClean(sc) && CandidateUrl(sc).Ok?
    ensures NoEscapedSlash(CandidateUrl(sc).value)
  {
    if sc.streams.StreamsList? {
      var entries := sc.streams.entries;
      var k := ScanStop(entries);
      if k < |entries| && entries[k].StreamObject? && entries[k].url.UrlString? {
        UnescapeRemovesEscapes(entries[k].url.value);
      }
      if entries != [] && entries[0].StreamObject? && entries[0].url.UrlString? {
        UnescapeRemovesEscapes(entries[0].url.value);
      }
    }
    if sc.urlLiteral.Some? {
      UnescapeRemovesEscapes(sc.urlLiteral.value);
    }
  }

  // ---- the query merge ----

  /** Copying the next `parse_qs` entry's first value appends it. */
  lemma HeadsPrefixStep(g: Dict<seq<string>>, i: nat)
    requires NonEmptyLists(g) && DistinctKeys(g) && i < |g|
    ensures Set(Heads(g[..i]), g[i].0, g[i].1[0]) == Heads(g[..i + 1])
  {
    var h := Heads(g[..i]);
    assert forall j :: 0 <= j < |h| ==> h[j].0 != g[i].0;
    assert Lookup(h, g[i].0).None?;
  }

  /** The `params` dict: every name of the candidate's query with its first
      value, then `h=1` when FHD is offered, then the captured token and
      expiry. */
  function MergedParams(query: string, token: Option<string>, expires: Option<string>, fhd: bool): Dict<string>
  {
    GroupHeads(ParseQsl(query));
    var base := Heads(ParseQs(query));
    var withH := if fhd then Set(base, "h", "1") else base;
    var withToken := if token.Some? then Set(withH, "token", token.value) else withH;
    if expires.Some? then Set(withToken, "expires", expires.value) else withToken
  }

  /** The copy loop over `parse_qs(parsed.query).items()` and the three
      overlays. */
  method BuildParams(query: string, token: Option<string>, expires: Option<string>, fhd: bool)
    returns (params: Dict<string>)
    ensures params == MergedParams(query, token, expires, fhd)
  {
    var existing := ParseQs(query);
    GroupHeads(ParseQsl(query));
    params := [];
    var i := 0;
    while i < |existing|
      invariant 0 <= i <= |existing|
      invariant params == Heads(existing[..i])
    {
      HeadsPrefixStep(existing, i);
      params := Set(params, existing[i].0, existing[i].1[0]);
      i := i + 1;
    }
    assert existing[..i] == existing;
    if fhd {
      params := Set(params, "h", "1");
    }
    if token.Some? {
      params := Set(params, "token", token.value);
    }
    if expires.Some? {
      params := Set(params, "expires", expires.value);
    }
  }

  /** Every name of the candidate's query keeps its first value unless an
      overlay replaces it; `h`, `token` and `expires` hold the overlay
      values when they apply. */
  lemma MergedLookup(query: string, token: Option<string>, expires: Option<string>, fhd: bool, k: string)
    ensures Lookup(MergedParams(query, token, expires, fhd), k) ==
      if k == "expires" && expires.Some? then expires
      else if k == "token" && token.Some? then token
      else if k == "h" && fhd then Some("1")
      else Lookup(ParseQsl(query), k)
  {
    GroupHeads(ParseQsl(query));
    FirstOccurrencesLookup(ParseQsl(query), k);
  }

  predicate OverlayName(k: string) { k == "h" || k == "token" || k == "expires" }

  /** `d` starts with the names of `base`, in order, and continues only with
      overlay names. */
  predicate ExtendsWithOverlays(base: Dict<string>, d: Dict<string>) {
    |d| >= |base|
    && (forall i :: 0 <= i < |base| ==> d[i].0 == base[i].0)
    && (forall i :: |base| <= i < |d| ==> OverlayName(d[i].0))
  }

  /** Assigning an overlay name keeps that shape. */
  lemma OverlayStep(base: Dict<string>, d: Dict<string>, k: string, v: string)
    requires ExtendsWithOverlays(base, d) && OverlayName(k)
    ensures ExtendsWithOverlays(base, Set(d, k, v))
  {
    var r := Set(d, k, v);
    forall i | |base| <= i < |r| ensures OverlayName(r[i].0) {
      if i < |d| { assert r[i].0 == d[i].0; }
    }
  }

  /** No name twice; the candidate's names first, in the order of their
      first appearance; after them only `h`, `token` and `expires`. */
  lemma MergedOrder(query: string, token: Option<string>, expires: Option<string>, fhd: bool)
    ensures DistinctKeys(MergedParams(query, token, expires, fhd))
    ensures ExtendsWithOverlays(FirstOccurrences(ParseQsl(query)), MergedParams(query, token, expires, fhd))
  {
    GroupHeads(ParseQsl(query));
    FirstOccurrencesLookup(ParseQsl(query), "");
    var base := FirstOccurrences(ParseQsl(query));
    assert ExtendsWithOverlays(base, base);
    var withH := if fhd then Set(base, "h", "1") else base;
    if fhd { OverlayStep(base, base, "h", "1"); }
    var withToken := if token.Some? then Set(withH, "token", token.value) else withH;
    if token.Some? { OverlayStep(base, withH, "token", token.value); }
    if expires.Some? { OverlayStep(base, withToken, "expires", expires.value); }
  }

  lemma SetNonEmpty(d: Dict<string>, k: string, v: string)
    requires NonEmptyValues(d) && v != []
    ensures NonEmptyValues(Set(d, k, v))
  {
    var r := Set(d, k, v);
    forall i | 0 <= i < |r| ensures r[i].1 != [] {
      if i < |d| && d[i].0 != k { assert r[i] == d[i]; }
    }
  }

  /** Every value of the merged query is non-empty when the captures are. */
  lemma MergedNonEmpty(query: string, token: Option<string>, expires: Option<string>, fhd: bool)
    requires token.Some? ==> token.value != []
    requires expires.Some? ==> expires.value != []
    ensures NonEmptyValues(MergedParams(query, token, expires, fhd))
  {
    GroupHeads(ParseQsl(query));
    ParseFieldsNonEmpty(Split(query, '&'));
    FirstOccurrencesNonEmpty(ParseQsl(query));
    var base := FirstOccurrences(ParseQsl(query));
    var withH := if fhd then Set(base, "h", "1") else base;
    if fhd { SetNonEmpty(base, "h", "1"); }
    var withToken := if token.Some? then Set(withH, "token", token.value) else withH;
    if token.Some? { SetNonEmpty(withH, "token", token.value); }
    if expires.Some? { SetNonEmpty(withToken, "expires", expires.value); }
  }

  /** Merging again into the encoded result changes nothing: the same
      names with the same values in the same order. */
  lemma MergeIdempotent(query: string, token: Option<string>, expires: Option<string>, fhd: bool)
    requires token.Some? ==> token.value != []
    requires expires.Some? ==> expires.value != []
    ensures MergedParams(UrlEncode(MergedParams(query, token, expires, fhd)), token, expires, fhd)
            == MergedParams(query, token, expires, fhd)
  {
    var m := MergedParams(query, token, expires, fhd);
    MergedNonEmpty(query, token, expires, fhd);
    MergedOrder(query, token, expires, fhd);
    ParseQslUrlEncode(m);
    GroupHeads(m);
    FirstOccurrencesDistinct(m);
    assert Heads(ParseQs(UrlEncode(m))) == m;
    var withH := if fhd then Set(m, "h", "1") else m;
    if fhd {
      MergedLookup(query, token, expires, fhd, "h");
      SetSameValue(m, "h", "1");
    }
    var withToken := if token.Some? then Set(withH, "token", token.value) else withH;
    if token.Some? {
      MergedLookup(query, token, expires, fhd, "token");
      SetSameValue(m, "token", token.value);
    }
    if expires.Some? {
      MergedLookup(query, token, expires, fhd, "expires");
      SetSameValue(m, "expires", expires.value);
    }
  }

  // ---- the rebuilt manifest URL ----

  /** `urlunparse(parsed._replace(query=urlencode(params)))` for a
      candidate; `urlparse` raising is `Raised`. */
  function Synthesize(candidate: string, token: Option<string>, expires: Option<string>, fhd: bool): Outcome<string>
  {
    match UrlParse(candidate)
    case None => Raised
    case Some(p) => Ok(UrlUnparse(p.(query := UrlEncode(MergedParams(p.query, token, expires, fhd)))))
  }

  /** An encoded query holds neither `#` nor a tab or line break. */
  lemma EncodedQueryClean(d: Dict<string>)
    ensures '#' !in UrlEncode(d) && NoUnsafe(UrlEncode(d))
  {
    UrlEncodeChars(d);
  }

  /** Only the query changes: the rebuilt URL parses to the candidate's
      scheme, network location, path, parameters and fragment, with the
      encoded merged query. */
  lemma SynthesizeKeepsComponents(candidate: string, token: Option<string>, expires: Option<string>, fhd: bool)
    requires UrlParse(candidate).Some?
    ensures Synthesize(candidate, token, expires, fhd).Ok?
    ensures UrlParse(Synthesize(candidate, token, expires, fhd).value) ==
      Some(UrlParse(candidate).value.(query := UrlEncode(MergedParams(UrlParse(candidate).value.query, token, expires, fhd))))
  {
    var p := UrlParse(candidate).value;
    var q := UrlEncode(MergedParams(p.query, token, expires, fhd));
    EncodedQueryClean(MergedParams(p.query, token, expires, fhd));
    ReplaceQueryRoundTrip(candidate, q);
  }

  /** The rebuilt query reads back as exactly the merged parameters. */
  lemma SynthesizedQuery(candidate: string, token: Option<string>, expires: Option<string>, fhd: bool)
    requires UrlParse(candidate).Some?
    requires token.Some? ==> token.value != []
    requires expires.Some? ==> expires.value != []
    ensures Synthesize(candidate, token, expires, fhd).Ok?
    ensures var p := UrlParse(Synthesize(candidate, token, expires, fhd).value);
      p.Some? && ParseQsl(p.value.query) == MergedParams(UrlParse(candidate).value.query, token, expires, fhd)
  {
    SynthesizeKeepsComponents(candidate, token, expires, fhd);
    MergedNonEmpty(UrlParse(candidate).value.query, token, expires, fhd);
    ParseQslUrlEncode(MergedParams(UrlParse(candidate).value.query, token, expires, fhd));
  }

  /** Rebuilding a rebuilt URL with the same token, expiry and FHD flag
      gives the same URL. */
  lemma SynthesizeIdempotent(candidate: string, token: Option<string>, expires: Option<string>, fhd: bool)
    requires UrlParse(candidate).Some?
    requires token.Some? ==> token.value != []
    requires expires.Some? ==> expires.value != []
    ensures Synthesize(candidate, token, expires, fhd).Ok?
    ensures Synthesize(Synthesize(candidate, token, expires, fhd).value, token, expires, fhd)
            == Synthesize(candidate, token, expires, fhd)
  {
    var p := UrlParse(candidate).value;
    var m := MergedParams(p.query, token, expires, fhd);
    SynthesizeKeepsComponents(candidate, token, expires, fhd);
    MergeIdempotent(p.query, token, expires, fhd);
    var p2 := p.(query := UrlEncode(m));
    assert UrlParse(Synthesize(candidate, token, expires, fhd).value) == Some(p2);
    assert p2.(query := UrlEncode(MergedParams(p2.query, token, expires, fhd))) == p2;
  }

  // ---- the embed page ----

  /** What `get_m3u8_from_embed` returns. */
  datatype M3u8 = M3u8(m3u8Url: string, referer: string)

  /** The loop over the page's scripts: the first script holding
      `masterPlaylist` that yields a stream URL decides; `Ok(None)` when
      none does. */
  function FromScripts(scripts: seq<Script>, embedUrl: string): Outcome<Option<M3u8>>
  {
    if scripts == [] then Ok(None)
    else
      var sc := scripts[0];
      if !sc.hasMarker then FromScripts(scripts[1..], embedUrl)
      else
        match CandidateUrl(sc)
        case Raised => Raised
        case Ok(u) =>
          if u == [] then FromScripts(scripts[1..], embedUrl)
          else
            match Synthesize(u, sc.token, sc.expires, sc.canPlayFhd)
            case Raised => Raised
            case Ok(m) => Ok(Some(M3u8(m, embedUrl)))
  }

  /** `get_m3u8_from_embed` once the embed page's scripts are in hand. */
  method ScanScripts(scripts: seq<Script>, embedUrl: string) returns (r: Outcome<Option<M3u8>>)
    ensures r == FromScripts(scripts, embedUrl)
  {
    var i := 0;
    while i < |scripts|
      invariant 0 <= i <= |scripts|
      invariant FromScripts(scripts[i..], embedUrl) == FromScripts(scripts, embedUrl)
    {
      assert scripts[i..][1..] == scripts[i + 1..];
      var sc := scripts[i];
      if sc.hasMarker {
        var layer: Outcome<string> := Ok("");
        if sc.streams.StreamsList? {
          layer := PickStream(sc.streams.entries);
        }
        if layer.Raised? {
          return Raised;
        }
        var streamUrl := layer.value;
        if streamUrl == [] && sc.urlLiteral.Some? {
          streamUrl := Unescape(sc.urlLiteral.value);
        }
        if streamUrl != [] {
          var parsed := UrlParse(streamUrl);
          if parsed.None? {
            return Raised;
          }
          var params := BuildParams(parsed.value.query, sc.token, sc.expires, sc.canPlayFhd);
          var m3u8Url := UrlUnparse(parsed.value.(query := UrlEncode(params)));
          return Ok(Some(M3u8(m3u8Url, embedUrl)));
        }
      }
      i := i + 1;
    }
    r := Ok(None);
  }

  /** A returned manifest carries the embed URL as its referer and is a URL
      `urlparse` accepts. */
  lemma {:induction false} FromScriptsResult(scripts: seq<Script>, embedUrl: string)
    requires FromScripts(scripts, embedUrl).Ok? && FromScripts(scripts, embedUrl).value.Some?
    ensures FromScripts(scripts, embedUrl).value.value.referer == embedUrl
    ensures UrlParse(FromScripts(scripts, embedUrl).value.value.m3u8Url).Some?
  {
    var sc := scripts[0];
    if !sc.hasMarker || CandidateUrl(sc) == Ok("") {
      FromScriptsResult(scripts[1..], embedUrl);
    } else {
      SynthesizeKeepsComponents(CandidateUrl(sc).value, sc.token, sc.expires, sc.canPlayFhd);
    }
  }
}
