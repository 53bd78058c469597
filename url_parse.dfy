/** URL splitting and joining as Python's `urllib.parse` does it (CPython
    3.12): `urlsplit`, `urlparse` with its `;params`, `urlunsplit`,
    `urlunparse`, and the `hostname` attribute of a parse result.
    A `ValueError` from `urlsplit` is `None`; of its checks, the one on
    mismatched brackets is modelled, while the validation of a bracketed
    host as an IPv6 or IPvFuture address and the NFKC check on non-ASCII
    network locations are not. */
module UrlComponents {
  import opened Wrappers
  import opened PyStr

  datatype SplitResult = SplitResult(scheme: string, netloc: string, path: string, query: string, fragment: string)

  datatype ParseResult = ParseResult(scheme: string, netloc: string, path: string, params: string, query: string, fragment: string)

  /** The characters `urlsplit` strips from the front: C0 controls and space. */
  predicate IsC0OrSpace(c: char) { c as int <= 0x20 }

  function LStripC0(s: string): (r: string)
    ensures |r| <= |s| && r == s[|s| - |r|..]
    ensures r == [] || !IsC0OrSpace(r[0])
  {
    if s != [] && IsC0OrSpace(s[0]) then LStripC0(s[1..]) else s
  }

  /** Tab, CR and LF, which `urlsplit` deletes wherever they occur. */
  predicate IsUnsafe(c: char) { c == '\t' || c == '\r' || c == '\n' }

  predicate NoUnsafe(s: string) { forall c :: c in s ==> !IsUnsafe(c) }

  function RemoveUnsafe(s: string): (r: string)
    ensures NoUnsafe(r)
    ensures NoUnsafe(s) ==> r == s
    ensures s != [] && !IsUnsafe(s[0]) ==> r != [] && r[0] == s[0]
  {
    if s == [] then []
    else
      assert forall c :: c in s[1..] ==> c in s;
      (if IsUnsafe(s[0]) then [] else [s[0]]) + RemoveUnsafe(s[1..])
  }

  /** ASCII letters, digits, '+', '-' and '.'. */
  predicate SchemeChar(c: char) {
    IsAsciiLetter(c) || IsDigit(c) || c == '+' || c == '-' || c == '.'
  }

  /** Whether `urlsplit` reads a scheme off the front of `s`: the text before
      the first ':' is non-empty, starts with an ASCII letter and holds only
      scheme characters. */
  predicate HasScheme(s: string) {
    var i := IndexOfChar(s, ':');
    0 < i < |s| && IsAsciiLetter(s[0]) && forall j :: 0 <= j < i ==> SchemeChar(s[j])
  }

  function SplitScheme(s: string): (string, string)
  {
    if HasScheme(s) then
      var i := IndexOfChar(s, ':');
      (AsciiLower(s[..i]), s[i + 1..])
    else ("", s)
  }

  /** A scheme as `urlsplit` returns it. */
  predicate ValidScheme(sc: string) {
    sc != [] && IsAsciiLetter(sc[0]) &&
    forall j :: 0 <= j < |sc| ==> SchemeChar(sc[j]) && !IsAsciiUpper(sc[j])
  }

  /** The characters that end a network location. */
  const NetlocDelims: set<char> := {'/', '?', '#'}

  predicate NoNetlocDelim(s: string) {
    forall c :: c in s ==> c !in NetlocDelims
  }

  /** `_splitnetloc(s)` once the leading "//" is removed. */
  function SplitNetloc(s: string): (r: (string, string))
    ensures r.0 + r.1 == s
    ensures NoNetlocDelim(r.0)
    ensures r.1 == [] || r.1[0] in NetlocDelims
  {
    var j := IndexOfAny(s, NetlocDelims);
    assert s[..j] + s[j..] == s;
    (s[..j], s[j..])
  }

  function SplitNetlocOf(rest: string): (string, string)
  {
    if StartsWith(rest, "//") then SplitNetloc(rest[2..]) else ("", rest)
  }

  /** The bracket test that makes `urlsplit` raise "Invalid IPv6 URL". */
  predicate BracketMismatch(netloc: string) {
    ('[' in netloc && ']' !in netloc) || (']' in netloc && '[' !in netloc)
  }

  /** `s.split(c, 1)` read as a pair, the second part empty when `c` is absent. */
  function SplitAt(s: string, c: char): (r: (string, string))
    ensures c !in r.0
    ensures |r.0| <= |s| && r.0 == s[..|r.0|]
    ensures c in s ==> r.1 == s[|r.0| + 1..]
    ensures c in s ==> s == r.0 + [c] + r.1
    ensures c !in s ==> r == (s, "")
  {
    var i := IndexOfChar(s, c);
    if i == |s| then (s, "")
    else
      assert s == s[..i] + [c] + s[i + 1..];
      (s[..i], s[i + 1..])
  }

  /** Path, query and fragment: the fragment after the first '#', then the
      query after the first '?' of what precedes it. */
  function SplitTail(rest: string): (string, string, string)
  {
    var (beforeHash, fragment) := SplitAt(rest, '#');
    var (path, query) := SplitAt(beforeHash, '?');
    (path, query, fragment)
  }

  function Prepare(url: string): string
  {
    RemoveUnsafe(LStripC0(url))
  }

  /** `urlsplit(url)`. */
  function UrlSplit(url: string): Option<SplitResult>
  {
    var schemeRest := SplitScheme(Prepare(url));
    var netlocRest := SplitNetlocOf(schemeRest.1);
    if BracketMismatch(netlocRest.0) then None
    else
      var tail := SplitTail(netlocRest.1);
      Some(SplitResult(schemeRest.0, netlocRest.0, tail.0, tail.1, tail.2))
  }

  const UsesParams: set<string> := {"", "ftp", "hdl", "prospero", "http", "imap", "https", "shttp",
    "rtsp", "rtsps", "rtspu", "sip", "sips", "mms", "sftp", "tel"}

  const UsesNetloc: set<string> := {"", "ftp", "http", "gopher", "nntp", "telnet", "imap", "wais",
    "file", "mms", "https", "shttp", "snews", "prospero", "rtsp", "rtsps", "rtspu", "rsync", "svn",
    "svn+ssh", "sftp", "nfs", "git", "git+ssh", "ws", "wss", "itms-services"}

  /** Where `_splitparams` cuts: the first ';' after the last '/', or the
      first ';' when there is no '/'; `|path|` when there is none. */
  function ParamsStart(path: string): (i: nat)
    ensures i <= |path|
    ensures i < |path| ==> path[i] == ';'
  {
    var slash := LastIndexOfChar(path, '/');
    if slash < 0 then IndexOfChar(path, ';') else slash + IndexOfChar(path[slash..], ';')
  }

  /** The path and `;params` of `urlparse`. */
  function SplitParams(scheme: string, path: string): (string, string)
  {
    if scheme in UsesParams && ';' in path then
      var i := ParamsStart(path);
      if i == |path| then (path, "") else (path[..i], path[i + 1..])
    else (path, "")
  }

  function WithParams(s: SplitResult): ParseResult
  {
    var (path, params) := SplitParams(s.scheme, s.path);
    ParseResult(s.scheme, s.netloc, path, params, s.query, s.fragment)
  }

  /** `urlparse(url)`. */
  function UrlParse(url: string): Option<ParseResult>
  {
    match UrlSplit(url)
    case None => None
    case Some(s) => Some(WithParams(s))
  }

  /** The part of `urlunsplit` between `scheme:` and the query. */
  function NetPath(s: SplitResult): string
  {
    if s.netloc != [] then
      "//" + s.netloc + (if s.path != [] && s.path[0] != '/' then "/" + s.path else s.path)
    else if StartsWith(s.path, "//") then "//" + s.path
    else if s.scheme != [] && s.scheme in UsesNetloc && (s.path == [] || s.path[0] == '/') then "//" + s.path
    else s.path
  }

  function Suffix(query: string, fragment: string): string
  {
    (if query != [] then "?" + query else "") + (if fragment != [] then "#" + fragment else "")
  }

  /** `urlunsplit(s)`. */
  function UrlUnsplit(s: SplitResult): string
  {
    (if s.scheme != [] then s.scheme + ":" else "") + NetPath(s) + Suffix(s.query, s.fragment)
  }

  function JoinParams(path: string, params: string): string
  {
    if params != [] then path + ";" + params else path
  }

  function WithoutParams(p: ParseResult): SplitResult
  {
    SplitResult(p.scheme, p.netloc, JoinParams(p.path, p.params), p.query, p.fragment)
  }

  /** `urlunparse(p)`. */
  function UrlUnparse(p: ParseResult): string
  {
    UrlUnsplit(WithoutParams(p))
  }

  /** `f"{scheme}://{netloc}"`, the origin the extractor derives from a URL. */
  function Origin(p: ParseResult): string
  {
    p.scheme + "://" + p.netloc
  }

  /** What every result of `urlsplit` satisfies. */
  predicate WellFormed(s: SplitResult) {
    (s.scheme == [] || ValidScheme(s.scheme))
    && NoUnsafe(s.netloc) && NoUnsafe(s.path) && NoUnsafe(s.query) && NoUnsafe(s.fragment)
    && NoNetlocDelim(s.netloc) && !BracketMismatch(s.netloc)
    && '?' !in s.path && '#' !in s.path && '#' !in s.query
    && (s.netloc != [] ==> s.path == [] || s.path[0] == '/')
    && (s.scheme == [] && s.netloc == [] ==>
          (s.path == [] || !IsC0OrSpace(s.path[0])) && !HasScheme(s.path))
  }

  // ---- urlsplit(urlunsplit(s)) == s, stage by stage ----

  lemma SuffixHead(query: string, fragment: string)
    ensures NoUnsafe(query) && NoUnsafe(fragment) ==> NoUnsafe(Suffix(query, fragment))
    ensures Suffix(query, fragment) == [] || Suffix(query, fragment)[0] in {'?', '#'}
  {
  }

  /** Splitting at the first `c` recovers the text on either side of it. */
  lemma SplitAtFirst(a: string, c: char, b: string)
    requires c !in a
    ensures SplitAt(a + [c] + b, c) == (a, b)
  {
    var s := a + [c] + b;
    assert s == a + ([c] + b);
    IndexOfCharAppend(a, [c] + b, c);
    assert s[..|a|] == a && s[|a| + 1..] == b;
  }

  lemma TailRoundTrip(path: string, query: string, fragment: string)
    requires '?' !in path && '#' !in path && '#' !in query
    ensures SplitTail(path + Suffix(query, fragment)) == (path, query, fragment)
  {
    var q := if query != [] then "?" + query else "";
    var beforeHash := path + q;
    assert '#' !in beforeHash;
    if fragment != [] {
      assert path + Suffix(query, fragment) == beforeHash + ['#'] + fragment;
      SplitAtFirst(beforeHash, '#', fragment);
    } else {
      assert path + Suffix(query, fragment) == beforeHash;
    }
    if query != [] {
      assert beforeHash == path + ['?'] + query;
      SplitAtFirst(path, '?', query);
    } else {
      assert beforeHash == path;
    }
  }

  lemma ReadNetloc(netloc: string, after: string)
    requires NoNetlocDelim(netloc)
    requires after == [] || after[0] in NetlocDelims
    ensures SplitNetlocOf("//" + netloc + after) == (netloc, after)
  {
    var rest := "//" + netloc + after;
    assert IndexOfAny(after, NetlocDelims) == 0;
    assert rest[2..] == netloc + after;
    assert forall j :: 0 <= j < |netloc| ==> netloc[j] !in NetlocDelims by {
      forall j | 0 <= j < |netloc| ensures netloc[j] !in NetlocDelims {
        assert netloc[j] in netloc;
      }
    }
    IndexOfAnyAppend(netloc, after, NetlocDelims);
    assert (netloc + after)[..|netloc|] == netloc;
    assert (netloc + after)[|netloc|..] == after;
  }

  lemma NoNetloc(path: string, tail: string)
    requires !StartsWith(path, "//")
    requires tail == [] || tail[0] in {'?', '#'}
    ensures SplitNetlocOf(path + tail) == ("", path + tail)
  {
    var rest := path + tail;
    if |path| >= 2 {
      assert rest[..2] == path[..2];
    } else if |path| == 0 {
      if |rest| >= 2 {
        assert rest[..2][0] == tail[0] && tail[0] != '/';
        assert "//"[0] == '/';
      }
    } else if |path| == 1 {
      if |rest| >= 2 {
        assert rest[..2][1] == tail[0] && tail[0] != '/';
        assert "//"[1] == '/';
      }
    }
    assert !StartsWith(rest, "//");
  }

  lemma NetlocRoundTrip(s: SplitResult)
    requires WellFormed(s)
    ensures SplitNetlocOf(NetPath(s) + Suffix(s.query, s.fragment))
            == (s.netloc, s.path + Suffix(s.query, s.fragment))
  {
    var tail := Suffix(s.query, s.fragment);
    SuffixHead(s.query, s.fragment);
    var after := s.path + tail;
    if s.netloc != [] || StartsWith(s.path, "//") ||
       (s.scheme != [] && s.scheme in UsesNetloc && (s.path == [] || s.path[0] == '/')) {
      assert after == [] || after[0] in NetlocDelims;
      assert NetPath(s) + tail == "//" + s.netloc + after;
      ReadNetloc(s.netloc, after);
    } else {
      assert NetPath(s) == s.path;
      NoNetloc(s.path, tail);
    }
  }

  lemma SchemeSplitsOff(scheme: string, rest: string)
    requires ValidScheme(scheme)
    ensures SplitScheme(scheme + ":" + rest) == (scheme, rest)
  {
    var s := scheme + ":" + rest;
    assert s == scheme + ([':'] + rest);
    assert ':' !in scheme;
    IndexOfCharAppend(scheme, [':'] + rest, ':');
    assert s[..|scheme|] == scheme;
    assert AsciiLower(scheme) == scheme;
    assert s[|scheme| + 1..] == rest;
  }

  /** A text that does not start with a scheme still does not once a
      character that cannot belong to one is followed by anything. */
  lemma NoSchemeExtend(a: string, b: string)
    requires !HasScheme(a)
    requires b == [] || (!SchemeChar(b[0]) && b[0] != ':')
    ensures !HasScheme(a + b)
  {
    IndexOfCharAppend(a, b, ':');
    var i := IndexOfChar(a + b, ':');
    if ':' in a {
      assert forall j :: 0 <= j < i ==> (a + b)[j] == a[j];
    } else if b != [] {
      assert i > |a|;
      assert (a + b)[|a|] == b[0];
    }
  }

  lemma SchemeRoundTrip(s: SplitResult)
    requires WellFormed(s)
    ensures SplitScheme(UrlUnsplit(s)) == (s.scheme, NetPath(s) + Suffix(s.query, s.fragment))
  {
    if s.scheme != [] {
      SchemeRoundTripWithScheme(s);
    } else if s.netloc != [] || StartsWith(s.path, "//") {
      SchemeRoundTripSlashes(s);
    } else {
      SchemeRoundTripPlain(s);
    }
  }

  lemma SchemeRoundTripWithScheme(s: SplitResult)
    requires WellFormed(s) && s.scheme != []
    ensures SplitScheme(UrlUnsplit(s)) == (s.scheme, NetPath(s) + Suffix(s.query, s.fragment))
  {
    var tail := Suffix(s.query, s.fragment);
    assert UrlUnsplit(s) == s.scheme + ":" + (NetPath(s) + tail);
    SchemeSplitsOff(s.scheme, NetPath(s) + tail);
  }

  lemma SchemeRoundTripSlashes(s: SplitResult)
    requires WellFormed(s) && s.scheme == [] && (s.netloc != [] || StartsWith(s.path, "//"))
    ensures SplitScheme(UrlUnsplit(s)) == (s.scheme, NetPath(s) + Suffix(s.query, s.fragment))
  {
    var tail := Suffix(s.query, s.fragment);
    assert UrlUnsplit(s) == NetPath(s) + tail;
    assert (NetPath(s) + tail)[0] == '/';
  }

  lemma SchemeRoundTripPlain(s: SplitResult)
    requires s.scheme == [] && s.netloc == [] && !StartsWith(s.path, "//") && !HasScheme(s.path)
    ensures SplitScheme(UrlUnsplit(s)) == (s.scheme, NetPath(s) + Suffix(s.query, s.fragment))
  {
    var tail := Suffix(s.query, s.fragment);
    SuffixHead(s.query, s.fragment);
    assert NetPath(s) == s.path;
    assert UrlUnsplit(s) == s.path + tail;
    NoSchemeBeforeSuffix(s.path, tail);
  }

  lemma NoSchemeBeforeSuffix(path: string, tail: string)
    requires !HasScheme(path) && (tail == [] || tail[0] in {'?', '#'})
    ensures SplitScheme(path + tail) == ("", path + tail)
  {
    NoSchemeExtend(path, tail);
  }

  lemma PrepareRoundTrip(s: SplitResult)
    requires WellFormed(s)
    ensures Prepare(UrlUnsplit(s)) == UrlUnsplit(s)
  {
    UnsplitNoUnsafe(s);
    UnsplitHead(s);
  }

  /** `urlunsplit` introduces no tab, CR or LF. */
  lemma UnsplitNoUnsafe(s: SplitResult)
    requires WellFormed(s)
    ensures NoUnsafe(UrlUnsplit(s))
  {
    SuffixHead(s.query, s.fragment);
    assert NoUnsafe(s.scheme) by {
      forall c | c in s.scheme ensures !IsUnsafe(c) {
        var j :| 0 <= j < |s.scheme| && s.scheme[j] == c;
      }
    }
    assert NoUnsafe(NetPath(s));
  }

  /** `urlunsplit` never starts with a control character or a space. */
  lemma UnsplitHead(s: SplitResult)
    requires WellFormed(s)
    ensures UrlUnsplit(s) == [] || !IsC0OrSpace(UrlUnsplit(s)[0])
  {
    var r := UrlUnsplit(s);
    SuffixHead(s.query, s.fragment);
    if s.scheme != [] {
      assert r[0] == s.scheme[0];
    } else if s.netloc != [] || StartsWith(s.path, "//") {
      assert r[0] == '/';
    } else {
      assert r == s.path + Suffix(s.query, s.fragment);
    }
  }

  /** `urlsplit(urlunsplit(s)) == s` for every well-formed split result. */
  lemma UnsplitSplit(s: SplitResult)
    requires WellFormed(s)
    ensures UrlSplit(UrlUnsplit(s)) == Some(s)
  {
    PrepareRoundTrip(s);
    SchemeRoundTrip(s);
    NetlocRoundTrip(s);
    TailRoundTrip(s.path, s.query, s.fragment);
  }

  // ---- every result of urlsplit is well-formed ----

  lemma PrepareShape(url: string)
    ensures NoUnsafe(Prepare(url))
    ensures Prepare(url) == [] || !IsC0OrSpace(Prepare(url)[0])
  {
  }

  /** `urlsplit` lower-cases a scheme it reads into a well-formed one. */
  lemma LowerScheme(s: string)
    requires HasScheme(s)
    ensures ValidScheme(AsciiLower(s[..IndexOfChar(s, ':')]))
  {
  }

  /** A prefix of a text that does not start with a scheme does not either. */
  lemma NoSchemePrefix(a: string, k: nat)
    requires k <= |a| && !HasScheme(a)
    ensures !HasScheme(a[..k])
  {
    assert a == a[..k] + a[k..];
    IndexOfCharAppend(a[..k], a[k..], ':');
  }

  lemma NoUnsafeSlice(s: string, i: nat, j: nat)
    requires i <= j <= |s| && NoUnsafe(s)
    ensures NoUnsafe(s[i..j])
  {
    forall c | c in s[i..j] ensures !IsUnsafe(c) {
      var k :| 0 <= k < j - i && s[i..j][k] == c;
      assert s[i + k] == c;
    }
  }

  lemma SplitAtNoUnsafe(s: string, c: char)
    requires NoUnsafe(s)
    ensures NoUnsafe(SplitAt(s, c).0) && NoUnsafe(SplitAt(s, c).1)
  {
    var r := SplitAt(s, c);
    NoUnsafeSlice(s, 0, |r.0|);
    if c in s {
      NoUnsafeSlice(s, |r.0| + 1, |s|);
    }
  }

  lemma TailShape(rest: string)
    ensures '?' !in SplitTail(rest).0 && '#' !in SplitTail(rest).0 && '#' !in SplitTail(rest).1
    ensures |SplitTail(rest).0| <= |rest| && rest[..|SplitTail(rest).0|] == SplitTail(rest).0
    ensures NoUnsafe(rest) ==>
      NoUnsafe(SplitTail(rest).0) && NoUnsafe(SplitTail(rest).1) && NoUnsafe(SplitTail(rest).2)
  {
    var (beforeHash, fragment) := SplitAt(rest, '#');
    var (path, query) := SplitAt(beforeHash, '?');
    assert '#' !in path;
    assert '#' !in query;
    assert rest[..|path|] == path by {
      assert rest[..|beforeHash|][..|path|] == rest[..|path|];
    }
    if NoUnsafe(rest) {
      SplitAtNoUnsafe(rest, '#');
      SplitAtNoUnsafe(beforeHash, '?');
    }
  }

  lemma SchemeShape(u: string)
    requires NoUnsafe(u)
    ensures SplitScheme(u).0 == [] || ValidScheme(SplitScheme(u).0)
    ensures SplitScheme(u).0 == [] ==> SplitScheme(u).1 == u
    ensures NoUnsafe(SplitScheme(u).1)
  {
    if HasScheme(u) {
      LowerScheme(u);
      NoUnsafeSlice(u, IndexOfChar(u, ':') + 1, |u|);
    }
  }

  lemma NetlocShape(rest: string)
    requires NoUnsafe(rest)
    ensures NoUnsafe(SplitNetlocOf(rest).0) && NoUnsafe(SplitNetlocOf(rest).1)
    ensures NoNetlocDelim(SplitNetlocOf(rest).0)
    ensures StartsWith(rest, "//") ==>
      SplitNetlocOf(rest).1 == [] || SplitNetlocOf(rest).1[0] in NetlocDelims
    ensures !StartsWith(rest, "//") ==> SplitNetlocOf(rest) == ("", rest)
  {
    if StartsWith(rest, "//") {
      var r := SplitNetloc(rest[2..]);
      NoUnsafeSlice(rest, 2, |rest|);
      NoUnsafeSlice(rest[2..], 0, |r.0|);
      NoUnsafeSlice(rest[2..], |r.0|, |rest[2..]|);
      assert rest[2..][..|r.0|] == r.0 && rest[2..][|r.0|..] == r.1;
    }
  }

  lemma PiecesWellFormed(u: string, schemeRest: (string, string), netlocRest: (string, string),
                         tail: (string, string, string))
    requires NoUnsafe(u) && (u == [] || !IsC0OrSpace(u[0]))
    requires schemeRest == SplitScheme(u) && netlocRest == SplitNetlocOf(schemeRest.1)
    requires tail == SplitTail(netlocRest.1) && !BracketMismatch(netlocRest.0)
    ensures WellFormed(SplitResult(schemeRest.0, netlocRest.0, tail.0, tail.1, tail.2))
  {
    PiecesContents(u, schemeRest, netlocRest, tail);
    PiecesPathStart(u, schemeRest, netlocRest, tail);
  }

  /** No piece holds a character `urlsplit` strips, and no piece holds the
      delimiter that ends it. */
  lemma PiecesContents(u: string, schemeRest: (string, string), netlocRest: (string, string),
                       tail: (string, string, string))
    requires NoUnsafe(u)
    requires schemeRest == SplitScheme(u) && netlocRest == SplitNetlocOf(schemeRest.1)
    requires tail == SplitTail(netlocRest.1)
    ensures schemeRest.0 == [] || ValidScheme(schemeRest.0)
    ensures NoUnsafe(netlocRest.0) && NoUnsafe(tail.0) && NoUnsafe(tail.1) && NoUnsafe(tail.2)
    ensures NoNetlocDelim(netlocRest.0) && '?' !in tail.0 && '#' !in tail.0 && '#' !in tail.1
  {
    SchemeShape(u);
    NetlocShape(schemeRest.1);
    TailShape(netlocRest.1);
  }

  /** After a netloc the path starts with `/`; without scheme and netloc it
      starts with neither a control character, a space nor a scheme. */
  lemma PiecesPathStart(u: string, schemeRest: (string, string), netlocRest: (string, string),
                        tail: (string, string, string))
    requires NoUnsafe(u) && (u == [] || !IsC0OrSpace(u[0]))
    requires schemeRest == SplitScheme(u) && netlocRest == SplitNetlocOf(schemeRest.1)
    requires tail == SplitTail(netlocRest.1)
    ensures netlocRest.0 != [] ==> tail.0 == [] || tail.0[0] == '/'
    ensures schemeRest.0 == [] && netlocRest.0 == [] ==>
      (tail.0 == [] || !IsC0OrSpace(tail.0[0])) && !HasScheme(tail.0)
  {
    if netlocRest.0 != [] {
      PathAfterNetloc(schemeRest.1, netlocRest, tail);
    }
    if schemeRest.0 == [] && netlocRest.0 == [] {
      PathWithoutNetloc(u, schemeRest, netlocRest, tail);
    }
  }

  lemma PathAfterNetloc(rest: string, netlocRest: (string, string), tail: (string, string, string))
    requires NoUnsafe(rest) && netlocRest == SplitNetlocOf(rest) && tail == SplitTail(netlocRest.1)
    requires netlocRest.0 != []
    ensures tail.0 == [] || tail.0[0] == '/'
  {
    NetlocShape(rest);
    TailShape(netlocRest.1);
    if tail.0 != [] {
      assert tail.0[0] == netlocRest.1[0];
    }
  }

  lemma PathWithoutNetloc(u: string, schemeRest: (string, string), netlocRest: (string, string),
                          tail: (string, string, string))
    requires NoUnsafe(u) && (u == [] || !IsC0OrSpace(u[0]))
    requires schemeRest == SplitScheme(u) && netlocRest == SplitNetlocOf(schemeRest.1)
    requires tail == SplitTail(netlocRest.1)
    requires schemeRest.0 == [] && netlocRest.0 == []
    ensures (tail.0 == [] || !IsC0OrSpace(tail.0[0])) && !HasScheme(tail.0)
  {
    SchemeShape(u);
    NetlocShape(u);
    if StartsWith(u, "//") {
      PathAfterDelimiter(netlocRest.1);
    } else {
      assert !HasScheme(u);
      PathOfPlainText(u);
    }
  }

  /** Text that starts with a delimiter, or is empty, has a path that is
      empty or starts with `/`. */
  lemma PathAfterDelimiter(rest: string)
    requires rest == [] || rest[0] in NetlocDelims
    ensures var path := SplitTail(rest).0;
      (path == [] || path[0] == '/') && !HasScheme(path)
  {
    TailShape(rest);
    var path := SplitTail(rest).0;
    if path != [] {
      assert path[0] == rest[0];
    }
  }

  /** A path cut from the front of text that has no scheme has none either. */
  lemma PathOfPlainText(u: string)
    requires (u == [] || !IsC0OrSpace(u[0])) && !HasScheme(u)
    ensures var path := SplitTail(u).0;
      (path == [] || !IsC0OrSpace(path[0])) && !HasScheme(path)
  {
    TailShape(u);
    var path := SplitTail(u).0;
    if path != [] {
      assert path[0] == u[0];
    }
    NoSchemePrefix(u, |path|);
  }

  /** Every result of `urlsplit` is well-formed. */
  lemma SplitWellFormed(url: string)
    requires UrlSplit(url).Some?
    ensures WellFormed(UrlSplit(url).value)
  {
    var u := Prepare(url);
    PrepareShape(url);
    var schemeRest := SplitScheme(u);
    var netlocRest := SplitNetlocOf(schemeRest.1);
    PiecesWellFormed(u, schemeRest, netlocRest, SplitTail(netlocRest.1));
  }

  // ---- urlparse(urlunparse(p with a new query)) ----

  lemma LastIndexOfCharIs(s: string, c: char, k: nat)
    requires k < |s| && s[k] == c
    requires forall j :: k < j < |s| ==> s[j] != c
    ensures LastIndexOfChar(s, c) == k
  {
  }

  /** Cutting a path where `_splitparams` cuts leaves nothing more to cut. */
  lemma ParamsStartPrefix(path: string)
    requires ParamsStart(path) < |path|
    ensures ';' !in path[..ParamsStart(path)] || ParamsStart(path[..ParamsStart(path)]) == ParamsStart(path)
  {
    var i := ParamsStart(path);
    var slash := LastIndexOfChar(path, '/');
    var cut := path[..i];
    if slash >= 0 {
      var k := IndexOfChar(path[slash..], ';');
      assert i > slash;
      LastIndexOfCharIs(cut, '/', slash);
      assert cut[slash..] == path[slash..][..k];
      assert ';' !in cut[slash..];
    }
  }

  /** Cutting the path of a well-formed split result keeps it well-formed. */
  lemma PathPrefixWellFormed(s: SplitResult, k: nat)
    requires WellFormed(s) && k <= |s.path|
    ensures WellFormed(s.(path := s.path[..k]))
  {
    NoUnsafeSlice(s.path, 0, k);
    if s.scheme == [] && s.netloc == [] {
      NoSchemePrefix(s.path, k);
    }
  }

  /** Joining the parameters back onto the path gives a well-formed split
      result that `urlparse` divides the same way again. */
  lemma ParamsRejoin(s: SplitResult)
    requires WellFormed(s)
    ensures WellFormed(WithoutParams(WithParams(s)))
    ensures WithParams(WithoutParams(WithParams(s))) == WithParams(s)
  {
    if s.scheme in UsesParams && ';' in s.path {
      var i := ParamsStart(s.path);
      if i < |s.path| {
        if s.path[i + 1..] != [] {
          ParamsRejoinKept(s, i);
        } else {
          ParamsRejoinDropped(s, i);
        }
      }
    }
  }

  /** Non-empty parameters are joined back exactly as they were cut off. */
  lemma ParamsRejoinKept(s: SplitResult, i: nat)
    requires s.scheme in UsesParams && ';' in s.path
    requires i == ParamsStart(s.path) && i < |s.path| && s.path[i + 1..] != []
    ensures WithoutParams(WithParams(s)) == s
  {
    assert s.path[..i] + ";" + s.path[i + 1..] == s.path;
  }

  /** An empty parameter part is lost together with its ';', and cutting the
      shortened path again finds nothing more to cut. */
  lemma ParamsRejoinDropped(s: SplitResult, i: nat)
    requires WellFormed(s) && s.scheme in UsesParams && ';' in s.path
    requires i == ParamsStart(s.path) && i < |s.path| && s.path[i + 1..] == []
    ensures WellFormed(WithoutParams(WithParams(s)))
    ensures WithParams(WithoutParams(WithParams(s))) == WithParams(s)
  {
    assert WithoutParams(WithParams(s)) == s.(path := s.path[..i]);
    PathPrefixWellFormed(s, i);
    ParamsStartPrefix(s.path);
  }

  /** `urlparse(urlunparse(p._replace(query=q)))` gives back `p` with query
      `q`: scheme, network location, path, parameters and fragment survive
      the rebuild, for any query without '#', tab, CR or LF. */
  lemma ReplaceQueryRoundTrip(url: string, q: string)
    requires UrlParse(url).Some?
    requires '#' !in q && NoUnsafe(q)
    ensures UrlParse(UrlUnparse(UrlParse(url).value.(query := q))) == Some(UrlParse(url).value.(query := q))
  {
    var s := UrlSplit(url).value;
    SplitWellFormed(url);
    ParamsRejoin(s);
    var p := WithParams(s);
    var s2 := WithoutParams(p).(query := q);
    assert WithoutParams(p.(query := q)) == s2;
    UnsplitSplit(s2);
    assert WithParams(s2) == WithParams(WithoutParams(p)).(query := q);
  }

  lemma OriginSplit(scheme: string, netloc: string)
    requires ValidScheme(scheme) && NoUnsafe(netloc) && NoNetlocDelim(netloc) && !BracketMismatch(netloc)
    ensures UrlSplit(scheme + "://" + netloc) == Some(SplitResult(scheme, netloc, "", "", ""))
  {
    var o := scheme + "://" + netloc;
    assert o == scheme + ":" + ("//" + netloc);
    assert NoUnsafe(scheme) by {
      forall c | c in scheme ensures !IsUnsafe(c) {
        var j :| 0 <= j < |scheme| && scheme[j] == c;
      }
    }
    assert NoUnsafe(o);
    assert o[0] == scheme[0];
    assert Prepare(o) == o;
    SchemeSplitsOff(scheme, "//" + netloc);
    ReadNetloc(netloc, "");
    assert "//" + netloc + "" == "//" + netloc;
    TailRoundTrip("", "", "");
  }

  /** The origin `f"{scheme}://{netloc}"` of a URL with a scheme parses back
      to that scheme and network location, with everything else empty. */
  lemma OriginParses(url: string)
    requires UrlParse(url).Some? && UrlParse(url).value.scheme != []
    ensures UrlParse(Origin(UrlParse(url).value))
            == Some(ParseResult(UrlParse(url).value.scheme, UrlParse(url).value.netloc, "", "", "", ""))
  {
    var s := UrlSplit(url).value;
    SplitWellFormed(url);
    OriginSplit(s.scheme, s.netloc);
  }

  // ---- hostname ----

  /** `netloc.rpartition('@')[2]`. */
  function AfterLastAt(netloc: string): (r: string)
    ensures '@' !in r
  {
    var i := LastIndexOfChar(netloc, '@');
    var r := netloc[i + 1..];
    assert forall j :: 0 <= j < |r| ==> r[j] != '@' by {
      forall j | 0 <= j < |r| ensures r[j] != '@' {
        assert r[j] == netloc[i + 1 + j];
      }
    }
    r
  }

  /** The host as the `_hostinfo` property finds it: after the last '@', the
      text inside the first '[' and the following ']' when there is a '[',
      otherwise the text before the first ':'. */
  function HostPart(netloc: string): (h: string)
    ensures '@' !in h
  {
    HostOfInfo(AfterLastAt(netloc))
  }

  /** The host within what follows the user information: the text between
      '[' and ']' when there is a '[', otherwise the text before the first
      ':'. */
  function HostOfInfo(hostinfo: string): (h: string)
    requires '@' !in hostinfo
    ensures '@' !in h
  {
    var b := IndexOfChar(hostinfo, '[');
    if b < |hostinfo| then
      var bracketed := hostinfo[b + 1..];
      bracketed[..IndexOfChar(bracketed, ']')]
    else hostinfo[..IndexOfChar(hostinfo, ':')]
  }

  /** `urlparse(url).hostname` for a given netloc: `None` when the host is
      empty, otherwise the host lower-cased up to a '%' zone suffix. */
  function Hostname(netloc: string): (r: Option<string>)
    ensures r.Some? <==> HostPart(netloc) != []
    ensures r.Some? ==> |r.value| == |HostPart(netloc)| && '@' !in r.value
  {
    var h := HostPart(netloc);
    if h == [] then None
    else
      var k := IndexOfChar(h, '%');
      var r := AsciiLower(h[..k]) + h[k..];
      assert forall j :: 0 <= j < |r| ==> r[j] != '@' by {
        forall j | 0 <= j < |r| ensures r[j] != '@' {
          assert h[j] in h;
        }
      }
      Some(r)
  }

  /** User information before an '@' never reaches the host name. */
  lemma UserInfoIgnored(user: string, hostport: string)
    requires '@' !in hostport
    ensures HostPart(user + "@" + hostport) == HostPart(hostport)
  {
    AfterLastAtUser(user, hostport);
  }

  lemma AfterLastAtUser(user: string, hostport: string)
    requires '@' !in hostport
    ensures AfterLastAt(user + "@" + hostport) == hostport == AfterLastAt(hostport)
  {
    var n := user + "@" + hostport;
    assert forall j :: |user| < j < |n| ==> n[j] == hostport[j - |user| - 1];
    LastIndexOfCharIs(n, '@', |user|);
    assert n[|user| + 1..] == hostport;
    assert hostport[0..] == hostport;
  }
}
