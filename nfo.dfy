/** The sidecar helpers of the Jellyfin NFO generator: the `.info.json` and
    `.nfo` paths derived from a media path, the upload date split into year
    and premiere date, the runtime in minutes, and the ordered list of
    elements the `<movie>` document is built from. */
module NfoGenerator {
  import opened Wrappers
  import opened PyStr

  // ---- paths ----

  /** Every character is a dot. */
  predicate AllDots(s: string) {
    forall i :: 0 <= i < |s| ==> s[i] == '.'
  }

  /** `os.path.splitext` on POSIX: the extension starts at the last dot of
      the file name (the part after the last `/`), unless only dots precede
      that dot in the file name; then there is no extension. */
  function SplitExt(p: string): (string, string)
  {
    var sep := LastIndexOfChar(p, '/');
    var dot := LastIndexOfChar(p, '.');
    if dot > sep && !AllDots(p[sep + 1..dot]) then (p[..dot], p[dot..]) else (p, "")
  }

  /** The two parts put together give the path back; a non-empty extension
      is a dot followed by neither dots nor slashes, and the file name left
      in the root is not dots only; there is no extension exactly when the
      file name holds no dot after something other than dots. */
  lemma SplitExtParts(p: string)
    ensures var r := SplitExt(p);
      && r.0 + r.1 == p
      && (r.1 != [] ==> r.1[0] == '.' && '/' !in r.1 && '.' !in r.1[1..])
      && (r.1 != [] ==> !AllDots(r.0[LastIndexOfChar(p, '/') + 1..]))
      && (r.1 == [] <==>
        LastIndexOfChar(p, '.') <= LastIndexOfChar(p, '/')
        || AllDots(p[LastIndexOfChar(p, '/') + 1..LastIndexOfChar(p, '.')]))
  {
    var sep := LastIndexOfChar(p, '/');
    var dot := LastIndexOfChar(p, '.');
    if dot > sep && !AllDots(p[sep + 1..dot]) {
      assert p[..dot] + p[dot..] == p;
      assert p[dot..][1..] == p[dot + 1..];
      assert p[..dot][sep + 1..] == p[sep + 1..dot];
    }
  }

  /** `get_info_json_path`. */
  function InfoJsonPath(p: string): string
  {
    SplitExt(p).0 + ".info.json"
  }

  /** The `.nfo` path `generate_nfo` writes. */
  function NfoPath(p: string): string
  {
    SplitExt(p).0 + ".nfo"
  }

  /** Both sidecars keep everything of the media path but its final
      extension, and differ from each other only in their suffix. */
  lemma SidecarPaths(p: string)
    ensures var base := SplitExt(p).0;
      var ext := p[|base|..];
      StartsWith(p, base) && (ext == [] || (ext[0] == '.' && '/' !in ext && '.' !in ext[1..]))
      && InfoJsonPath(p) == base + ".info.json" && NfoPath(p) == base + ".nfo"
      && InfoJsonPath(p)[..|InfoJsonPath(p)| - 10] == NfoPath(p)[..|NfoPath(p)| - 4]
  {
    var base := SplitExt(p).0;
    SplitExtParts(p);
    assert p[..|base|] == base && p[|base|..] == SplitExt(p).1;
    assert (base + ".info.json")[..|base|] == base;
    assert (base + ".nfo")[..|base|] == base;
  }

  /** Where the file name of the base holds a character other than a dot,
      the `.nfo` path splits back into that base and `.nfo`, so the info
      path derived from the `.nfo` path is the one derived from the media
      path. */
  lemma NfoPathSplits(p: string)
    requires !AllDots(SplitExt(p).0[LastIndexOfChar(SplitExt(p).0, '/') + 1..])
    ensures SplitExt(NfoPath(p)) == (SplitExt(p).0, ".nfo")
    ensures InfoJsonPath(NfoPath(p)) == InfoJsonPath(p)
  {
    SplitExtNfo(SplitExt(p).0);
  }

  /** `base + ".nfo"` splits at the dot just added. */
  lemma SplitExtNfo(base: string)
    requires !AllDots(base[LastIndexOfChar(base, '/') + 1..])
    ensures SplitExt(base + ".nfo") == (base, ".nfo")
  {
    var q := base + ".nfo";
    var sep := LastIndexOfChar(base, '/');
    NfoLastDot(base);
    NfoLastSlash(base);
    assert q[..|base|] == base && q[|base|..] == ".nfo";
  }

  /** In `base + ".nfo"` the last dot is the one added. */
  lemma NfoLastDot(base: string)
    ensures LastIndexOfChar(base + ".nfo", '.') == |base|
  {
    assert ".nfo"[0] == '.';
    LastIndexOfCharAppend(base, ".nfo", '.');
    assert LastIndexOfChar(".nfo", '.') == 0;
  }

  /** In `base + ".nfo"` the last slash is the last slash of `base`. */
  lemma NfoLastSlash(base: string)
    ensures LastIndexOfChar(base + ".nfo", '/') == LastIndexOfChar(base, '/')
  {
    assert '/' !in ".nfo";
    LastIndexOfCharAppend(base, ".nfo", '/');
  }

  /** `rfind` on a concatenation looks in the second part first. */
  lemma {:induction false} LastIndexOfCharAppend(a: string, b: string, c: char)
    ensures c in b ==> LastIndexOfChar(a + b, c) == |a| + LastIndexOfChar(b, c)
    ensures c !in b ==> LastIndexOfChar(a + b, c) == LastIndexOfChar(a, c)
  {
    var i := LastIndexOfChar(a + b, c);
    if c in b {
      var k := |a| + LastIndexOfChar(b, c);
      assert (a + b)[k] == c;
      assert forall j :: k < j < |a + b| ==> (a + b)[j] == b[j - |a|];
    } else {
      var k := LastIndexOfChar(a, c);
      if 0 <= k { assert (a + b)[k] == c; }
      assert forall j :: 0 <= j < |a| ==> (a + b)[j] == a[j];
      assert forall j :: |a| <= j < |a + b| ==> (a + b)[j] == b[j - |a|];
    }
  }

  // ---- upload date and runtime ----

  /** `parse_upload_date`: `YYYYMMDD` to the year and `YYYY-MM-DD`; any
      other length gives two empty strings. */
  function ParseUploadDate(d: string): (r: (string, string))
    ensures |d| != 8 ==> r == ("", "")
    ensures |d| == 8 ==>
      r.0 == d[..4] && |r.1| == 10 && r.1[..4] == r.0 && r.1[4] == '-' && r.1[7] == '-'
      && r.1[..4] + r.1[5..7] + r.1[8..] == d
  {
    if |d| != 8 then ("", "")
    else
      var premiered := d[..4] + "-" + d[4..6] + "-" + d[6..8];
      assert premiered[..4] == d[..4] && premiered[5..7] == d[4..6] && premiered[8..] == d[6..8];
      assert d[..4] + d[4..6] + d[6..8] == d;
      (d[..4], premiered)
  }

  /** `int(x / 60)`: the quotient truncated toward zero. */
  function MinutesOf(seconds: int): (m: int)
    ensures seconds >= 0 ==> m >= 0 && 60 * m <= seconds < 60 * (m + 1)
    ensures seconds < 0 ==> m <= 0 && 60 * (m - 1) < seconds <= 60 * m
  {
    if seconds >= 0 then seconds / 60 else -((-seconds) / 60)
  }

  /** `seconds_to_minutes` on an integer or `None`. */
  function SecondsToMinutes(seconds: Option<int>): (r: string)
    ensures seconds.None? <==> r == []
  {
    if seconds.None? then "" else
      IntToStringRoundTrip(MinutesOf(seconds.value));
      IntToString(MinutesOf(seconds.value))
  }

  /** The string reads back as the whole number of minutes. */
  lemma MinutesRoundTrip(seconds: int)
    ensures ParseInt(SecondsToMinutes(Some(seconds))) == MinutesOf(seconds)
  {
    IntToStringRoundTrip(MinutesOf(seconds));
  }

  /** More seconds never make fewer minutes. */
  lemma MinutesMonotone(a: int, b: int)
    requires a <= b
    ensures MinutesOf(a) <= MinutesOf(b)
  {
  }

  // ---- the element list ----

  /** A string field of the info dict: absent, `null`, or a string. */
  datatype Field = Absent | Null | Text(s: string)

  /** `info.get(key, default)` as far as the document can tell: a `null` is
      written as no text and fails every truthiness test, as "" does. */
  function Get(f: Field, default: string): (r: string)
    ensures f.Text? ==> r == f.s
    ensures f.Absent? ==> r == default
    ensures f.Null? ==> r == []
  {
    match f
    case Absent => default
    case Null => ""
    case Text(s) => s
  }

  /** The keys of the yt-dlp info dict the document is built from. Absent
      or `null` tags are `[]`; an absent or `null` duration is `None`. */
  datatype Info = Info(
    title: Field, description: Field, uploadDate: Field, uploader: Field, channel: Field,
    id: Field, webpageUrl: Field, tags: seq<string>, duration: Option<int>)

  /** The element names `create_nfo_xml` uses under `<movie>`. */
  datatype Kind = Title | OriginalTitle | Plot | Year | Premiered | Studio | Director | UniqueId | Website | Tag | Runtime

  /** The XML name of each kind. */
  function TagName(k: Kind): string
  {
    match k
    case Title => "title"
    case OriginalTitle => "originaltitle"
    case Plot => "plot"
    case Year => "year"
    case Premiered => "premiered"
    case Studio => "studio"
    case Director => "director"
    case UniqueId => "uniqueid"
    case Website => "website"
    case Tag => "tag"
    case Runtime => "runtime"
  }

  /** A child element of `<movie>`: its kind, attributes and text. */
  datatype Element = Element(kind: Kind, attrs: seq<(string, string)>, text: string)

  function Simple(k: Kind, text: string): Element { Element(k, [], text) }

  function TitleText(info: Info): string { Get(info.title, "Unknown Title") }

  /** `info.get("uploader", info.get("channel", ""))`. */
  function UploaderText(info: Info): string
  {
    if info.uploader.Absent? then Get(info.channel, "") else Get(info.uploader, "")
  }

  /** The first twenty tags, as `tags[:20]` takes them. */
  function FirstTags(tags: seq<string>): (r: seq<string>)
    ensures |r| == if |tags| < 20 then |tags| else 20
    ensures r == tags[..|r|]
  {
    if |tags| < 20 then tags else tags[..20]
  }

  /** The non-empty strings of `ts`, in order. */
  function NonEmpty(ts: seq<string>): (r: seq<string>)
    ensures |r| <= |ts|
    ensures forall i :: 0 <= i < |r| ==> r[i] != []
  {
    if ts == [] then []
    else NonEmpty(ts[..|ts| - 1]) + (if ts[|ts| - 1] != [] then [ts[|ts| - 1]] else [])
  }

  /** Exactly the non-empty tags are kept, and nothing is dropped when no
      tag is empty. */
  lemma {:induction false} NonEmptyMembers(ts: seq<string>)
    ensures forall t :: t in NonEmpty(ts) <==> t in ts && t != []
    ensures (forall i :: 0 <= i < |ts| ==> ts[i] != []) ==> NonEmpty(ts) == ts
  {
    if ts != [] {
      var init := ts[..|ts| - 1];
      NonEmptyMembers(init);
      assert ts == init + [ts[|ts| - 1]];
    }
  }

  /** One `<tag>` per non-empty tag, in order. */
  function TagElements(ts: seq<string>): (r: seq<Element>)
    ensures |r| <= |ts|
  {
    if ts == [] then []
    else TagElements(ts[..|ts| - 1]) + (if ts[|ts| - 1] != [] then [Simple(Tag, ts[|ts| - 1])] else [])
  }

  /** One more tag adds its element, when the tag is non-empty. */
  lemma TagStep(ts: seq<string>, i: nat)
    requires i < |ts|
    ensures TagElements(ts[..i + 1]) == TagElements(ts[..i]) + Opt(ts[i] != [], Simple(Tag, ts[i]))
  {
    assert ts[..i + 1][..i] == ts[..i];
  }

  function Opt(present: bool, e: Element): seq<Element>
  {
    if present then [e] else []
  }

  /** `title`, `originaltitle` and `plot`: always written. */
  function HeadElements(title: string, plot: string): seq<Element>
  {
    [Simple(Title, title), Simple(OriginalTitle, title), Simple(Plot, plot)]
  }

  /** `year` and `premiered`, each when non-empty. */
  function DateElements(year: string, premiered: string): seq<Element>
  {
    Opt(year != [], Simple(Year, year)) + Opt(premiered != [], Simple(Premiered, premiered))
  }

  /** `studio` and `director`, both the uploader, when it is non-empty. */
  function UploaderElements(uploader: string): seq<Element>
  {
    Opt(uploader != [], Simple(Studio, uploader)) + Opt(uploader != [], Simple(Director, uploader))
  }

  /** `uniqueid` (typed `youtube`) and `website`, each when non-empty. */
  function LinkElements(id: string, website: string): seq<Element>
  {
    Opt(id != [], Element(UniqueId, [("type", "youtube")], id)) + Opt(website != [], Simple(Website, website))
  }

  /** The children of `<movie>` in the order `create_nfo_xml` appends them. */
  function NfoElements(info: Info): seq<Element>
  {
    FrontElements(info) + BackElements(info)
  }

  /** Title to director. */
  function FrontElements(info: Info): seq<Element>
  {
    var dates := ParseUploadDate(Get(info.uploadDate, ""));
    HeadElements(TitleText(info), Get(info.description, ""))
    + DateElements(dates.0, dates.1)
    + UploaderElements(UploaderText(info))
  }

  /** Unique id to runtime. */
  function BackElements(info: Info): seq<Element>
  {
    var runtime := SecondsToMinutes(info.duration);
    LinkElements(Get(info.id, ""), Get(info.webpageUrl, ""))
    + TagElements(FirstTags(info.tags))
    + Opt(runtime != [], Simple(Runtime, runtime))
  }

  /** The texts of the elements of kind `k`, in order. */
  function TextsOf(es: seq<Element>, k: Kind): (ts: seq<string>)
    ensures |ts| <= |es|
  {
    if es == [] then []
    else TextsOf(es[..|es| - 1], k) + (if es[|es| - 1].kind == k then [es[|es| - 1].text] else [])
  }

  lemma {:induction false} TextsOfAppend(a: seq<Element>, b: seq<Element>, k: Kind)
    ensures TextsOf(a + b, k) == TextsOf(a, k) + TextsOf(b, k)
    decreases |b|
  {
    if b == [] {
      assert a + b == a;
    } else {
      var init := b[..|b| - 1];
      assert (a + b)[..|a + b| - 1] == a + init;
      TextsOfAppend(a, init, k);
    }
  }

  lemma TextsOfOpt(present: bool, e: Element, k: Kind)
    ensures TextsOf(Opt(present, e), k) == if present && e.kind == k then [e.text] else []
  {
    if present {
      assert [e][..0] == [];
    }
  }

  /** The two texts of a pair of optional elements. */
  lemma TextsOfOptPair(p: bool, e: Element, q: bool, f: Element, k: Kind)
    ensures TextsOf(Opt(p, e) + Opt(q, f), k)
      == (if p && e.kind == k then [e.text] else []) + (if q && f.kind == k then [f.text] else [])
  {
    TextsOfAppend(Opt(p, e), Opt(q, f), k);
    TextsOfOpt(p, e, k);
    TextsOfOpt(q, f, k);
  }

  lemma HeadTexts(title: string, plot: string, k: Kind)
    ensures TextsOf(HeadElements(title, plot), k)
      == if k == Title || k == OriginalTitle then [title] else if k == Plot then [plot] else []
  {
    var e := HeadElements(title, plot);
    assert e == Opt(true, e[0]) + Opt(true, e[1]) + Opt(true, e[2]);
    TextsOfAppend(Opt(true, e[0]) + Opt(true, e[1]), Opt(true, e[2]), k);
    TextsOfOptPair(true, e[0], true, e[1], k);
    TextsOfOpt(true, e[2], k);
  }

  lemma DateTexts(year: string, premiered: string, k: Kind)
    ensures TextsOf(DateElements(year, premiered), k)
      == if k == Year && year != [] then [year] else if k == Premiered && premiered != [] then [premiered] else []
  {
    TextsOfOptPair(year != [], Simple(Year, year), premiered != [], Simple(Premiered, premiered), k);
  }

  lemma UploaderTexts(uploader: string, k: Kind)
    ensures TextsOf(UploaderElements(uploader), k)
      == if (k == Studio || k == Director) && uploader != [] then [uploader] else []
  {
    TextsOfOptPair(uploader != [], Simple(Studio, uploader), uploader != [], Simple(Director, uploader), k);
  }

  lemma LinkTexts(id: string, website: string, k: Kind)
    ensures TextsOf(LinkElements(id, website), k)
      == if k == UniqueId && id != [] then [id] else if k == Website && website != [] then [website] else []
  {
    TextsOfOptPair(id != [], Element(UniqueId, [("type", "youtube")], id), website != [], Simple(Website, website), k);
  }

  /** The `<tag>` elements carry the non-empty tags; no other element is
      among them. */
  lemma {:induction false} TagTexts(ts: seq<string>, k: Kind)
    ensures TextsOf(TagElements(ts), k) == if k == Tag then NonEmpty(ts) else []
  {
    if ts != [] {
      var init := ts[..|ts| - 1];
      var last := ts[|ts| - 1];
      TagTexts(init, k);
      TextsOfAppend(TagElements(init), Opt(last != [], Simple(Tag, last)), k);
      TextsOfOpt(last != [], Simple(Tag, last), k);
    }
  }

  lemma FrontTexts(info: Info, k: Kind)
    ensures var dates := ParseUploadDate(Get(info.uploadDate, ""));
      var u := UploaderText(info);
      TextsOf(FrontElements(info), k)
      == (if k == Title || k == OriginalTitle then [TitleText(info)] else if k == Plot then [Get(info.description, "")] else [])
       + (if k == Year && dates.0 != [] then [dates.0] else if k == Premiered && dates.1 != [] then [dates.1] else [])
       + (if (k == Studio || k == Director) && u != [] then [u] else [])
  {
    var dates := ParseUploadDate(Get(info.uploadDate, ""));
    var e0 := HeadElements(TitleText(info), Get(info.description, ""));
    var e1 := DateElements(dates.0, dates.1);
    var e2 := UploaderElements(UploaderText(info));
    TextsOfAppend(e0 + e1, e2, k);
    TextsOfAppend(e0, e1, k);
    HeadTexts(TitleText(info), Get(info.description, ""), k);
    DateTexts(dates.0, dates.1, k);
    UploaderTexts(UploaderText(info), k);
  }

  lemma BackTexts(info: Info, k: Kind)
    ensures var runtime := SecondsToMinutes(info.duration);
      var id := Get(info.id, "");
      var w := Get(info.webpageUrl, "");
      TextsOf(BackElements(info), k)
      == (if k == UniqueId && id != [] then [id] else if k == Website && w != [] then [w] else [])
       + (if k == Tag then NonEmpty(FirstTags(info.tags)) else [])
       + (if k == Runtime && runtime != [] then [runtime] else [])
  {
    var runtime := SecondsToMinutes(info.duration);
    var e0 := LinkElements(Get(info.id, ""), Get(info.webpageUrl, ""));
    var e1 := TagElements(FirstTags(info.tags));
    var e2 := Opt(runtime != [], Simple(Runtime, runtime));
    TextsOfAppend(e0 + e1, e2, k);
    TextsOfAppend(e0, e1, k);
    LinkTexts(Get(info.id, ""), Get(info.webpageUrl, ""), k);
    TagTexts(FirstTags(info.tags), k);
    TextsOfOpt(runtime != [], Simple(Runtime, runtime), k);
  }

  /** The texts of one kind, part by part. */
  lemma KindTexts(info: Info, k: Kind)
    ensures var dates := ParseUploadDate(Get(info.uploadDate, ""));
      var runtime := SecondsToMinutes(info.duration);
      var u := UploaderText(info);
      var id := Get(info.id, "");
      var w := Get(info.webpageUrl, "");
      TextsOf(NfoElements(info), k)
      == (if k == Title || k == OriginalTitle then [TitleText(info)] else if k == Plot then [Get(info.description, "")] else [])
       + (if k == Year && dates.0 != [] then [dates.0] else if k == Premiered && dates.1 != [] then [dates.1] else [])
       + (if (k == Studio || k == Director) && u != [] then [u] else [])
       + ((if k == UniqueId && id != [] then [id] else if k == Website && w != [] then [w] else [])
       + (if k == Tag then NonEmpty(FirstTags(info.tags)) else [])
       + (if k == Runtime && runtime != [] then [runtime] else []))
  {
    TextsOfAppend(FrontElements(info), BackElements(info), k);
    FrontTexts(info, k);
    BackTexts(info, k);
  }

  /** The document opens with `title` and `originaltitle`, both holding the
      title, "Unknown Title" when the info has none. */
  lemma TitleFirst(info: Info)
    ensures |NfoElements(info)| >= 3
    ensures NfoElements(info)[0] == Element(Title, [], TitleText(info))
    ensures NfoElements(info)[1] == Element(OriginalTitle, [], TitleText(info))
    ensures info.title.Absent? ==> TitleText(info) == "Unknown Title"
  {
    var h := HeadElements(TitleText(info), Get(info.description, ""));
    var front := FrontElements(info);
    assert |front| >= 3 && front[0] == h[0] && front[1] == h[1];
  }

  /** `title` occurs once. */
  lemma TitleOnce(info: Info)
    ensures TextsOf(NfoElements(info), Title) == [TitleText(info)]
  {
    KindTexts(info, Title);
  }

  /** `originaltitle` occurs once, with the same text as `title`. */
  lemma OriginalTitleOnce(info: Info)
    ensures TextsOf(NfoElements(info), OriginalTitle) == [TitleText(info)]
  {
    KindTexts(info, OriginalTitle);
  }

  /** At most twenty `<tag>` elements: the non-empty ones among the first
      twenty tags, in order. */
  lemma TagsLimited(info: Info)
    ensures TextsOf(NfoElements(info), Tag) == NonEmpty(FirstTags(info.tags))
    ensures |TextsOf(NfoElements(info), Tag)| <= 20
    ensures forall t :: t in TextsOf(NfoElements(info), Tag) <==> t in FirstTags(info.tags) && t != []
  {
    TagsOfNfo(info);
    NonEmptyMembers(FirstTags(info.tags));
  }

  lemma TagsOfNfo(info: Info)
    ensures TextsOf(NfoElements(info), Tag) == NonEmpty(FirstTags(info.tags))
  {
    KindTexts(info, Tag);
  }

  /** `year` is written, once, exactly for an eight-character upload date,
      and holds its first four characters. */
  lemma YearOnce(info: Info)
    ensures var d := Get(info.uploadDate, "");
      TextsOf(NfoElements(info), Year) == (if |d| == 8 then [d[..4]] else [])
  {
    KindTexts(info, Year);
  }

  /** `premiered` is written, once, exactly for an eight-character upload
      date. */
  lemma PremieredOnce(info: Info)
    ensures var d := Get(info.uploadDate, "");
      TextsOf(NfoElements(info), Premiered) == (if |d| == 8 then [ParseUploadDate(d).1] else [])
  {
    KindTexts(info, Premiered);
  }

  /** `studio` is written, once, exactly when the uploader (the channel when
      no uploader key exists) is non-empty. */
  lemma StudioOnce(info: Info)
    ensures TextsOf(NfoElements(info), Studio) == (if UploaderText(info) != [] then [UploaderText(info)] else [])
  {
    KindTexts(info, Studio);
  }

  /** `director` carries the same uploader, under the same condition. */
  lemma DirectorOnce(info: Info)
    ensures TextsOf(NfoElements(info), Director) == TextsOf(NfoElements(info), Studio)
  {
    KindTexts(info, Studio);
    KindTexts(info, Director);
  }

  /** `uniqueid` is written, once, exactly when the id is non-empty. */
  lemma UniqueIdOnce(info: Info)
    ensures TextsOf(NfoElements(info), UniqueId) == (if Get(info.id, "") != [] then [Get(info.id, "")] else [])
  {
    KindTexts(info, UniqueId);
  }

  /** `website` is written, once, exactly when the page URL is non-empty. */
  lemma WebsiteOnce(info: Info)
    ensures TextsOf(NfoElements(info), Website)
      == (if Get(info.webpageUrl, "") != [] then [Get(info.webpageUrl, "")] else [])
  {
    KindTexts(info, Website);
  }

  /** `runtime` is written, once, exactly when a duration is given. */
  lemma RuntimeOnce(info: Info)
    ensures TextsOf(NfoElements(info), Runtime)
      == (if info.duration.Some? then [SecondsToMinutes(info.duration)] else [])
  {
    KindTexts(info, Runtime);
  }

  lemma AppendAssoc(a: seq<Element>, b: seq<Element>, c: seq<Element>)
    ensures a + (b + c) == a + b + c
  {
  }

  /** The children one append at a time, as `create_nfo_xml` adds them. */
  lemma NfoElementsFlat(info: Info)
    ensures var dates := ParseUploadDate(Get(info.uploadDate, ""));
      var u := UploaderText(info);
      var id := Get(info.id, "");
      var w := Get(info.webpageUrl, "");
      var runtime := SecondsToMinutes(info.duration);
      NfoElements(info)
      == HeadElements(TitleText(info), Get(info.description, ""))
       + Opt(dates.0 != [], Simple(Year, dates.0)) + Opt(dates.1 != [], Simple(Premiered, dates.1))
       + Opt(u != [], Simple(Studio, u)) + Opt(u != [], Simple(Director, u))
       + Opt(id != [], Element(UniqueId, [("type", "youtube")], id)) + Opt(w != [], Simple(Website, w))
       + TagElements(FirstTags(info.tags)) + Opt(runtime != [], Simple(Runtime, runtime))
  {
    var dates := ParseUploadDate(Get(info.uploadDate, ""));
    var u := UploaderText(info);
    var id := Get(info.id, "");
    var w := Get(info.webpageUrl, "");
    var runtime := SecondsToMinutes(info.duration);
    var h := HeadElements(TitleText(info), Get(info.description, ""));
    var y, p := Opt(dates.0 != [], Simple(Year, dates.0)), Opt(dates.1 != [], Simple(Premiered, dates.1));
    var st, di := Opt(u != [], Simple(Studio, u)), Opt(u != [], Simple(Director, u));
    var ui, we := Opt(id != [], Element(UniqueId, [("type", "youtube")], id)), Opt(w != [], Simple(Website, w));
    var t, r := TagElements(FirstTags(info.tags)), Opt(runtime != [], Simple(Runtime, runtime));
    AppendAssoc(h, y, p);
    AppendAssoc(h + y + p, st, di);
    var front := h + y + p + st + di;
    assert FrontElements(info) == front;
    AppendAssoc(front, ui + we + t, r);
    AppendAssoc(front, ui + we, t);
    AppendAssoc(front, ui, we);
  }

  /** `if present: SubElement(root, ...)`: the element is appended only when
      its condition holds. */
  method AppendIf(root: seq<Element>, present: bool, e: Element) returns (r: seq<Element>)
    ensures r == root + Opt(present, e)
  {
    r := root;
    if present {
      r := r + [e];
    }
  }

  /** The loop over the first twenty tags: a `<tag>` is appended for each
      non-empty one. */
  method AppendTags(root: seq<Element>, tags: seq<string>) returns (r: seq<Element>)
    ensures r == root + TagElements(FirstTags(tags))
  {
    var first := FirstTags(tags);
    r := root;
    var i := 0;
    while i < |first|
      invariant 0 <= i <= |first|
      invariant r == root + TagElements(first[..i])
    {
      TagStep(first, i);
      if first[i] != [] {
        r := r + [Simple(Tag, first[i])];
      }
      i := i + 1;
    }
    assert first[..i] == first;
  }

  /** `create_nfo_xml` up to serialisation: the children appended to
      `<movie>`, one `SubElement` call at a time. */
  method CreateNfoElements(info: Info) returns (root: seq<Element>)
    ensures root == NfoElements(info)
  {
    var title := TitleText(info);
    var plot := Get(info.description, "");
    root := [Simple(Title, title), Simple(OriginalTitle, title), Simple(Plot, plot)];
    var dates := ParseUploadDate(Get(info.uploadDate, ""));
    var year, premiered := dates.0, dates.1;
    root := AppendIf(root, year != [], Simple(Year, year));
    root := AppendIf(root, premiered != [], Simple(Premiered, premiered));
    var uploader := UploaderText(info);
    root := AppendIf(root, uploader != [], Simple(Studio, uploader));
    root := AppendIf(root, uploader != [], Simple(Director, uploader));
    var id := Get(info.id, "");
    root := AppendIf(root, id != [], Element(UniqueId, [("type", "youtube")], id));
    var website := Get(info.webpageUrl, "");
    root := AppendIf(root, website != [], Simple(Website, website));
    var tags := info.tags;
    if tags != [] {
      root := AppendTags(root, tags);
    }
    var runtime := SecondsToMinutes(info.duration);
    root := AppendIf(root, runtime != [], Simple(Runtime, runtime));
    NfoElementsFlat(info);
  }
}
