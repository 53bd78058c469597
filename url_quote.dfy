/** Query-string handling of Python's `urllib.parse`: `quote_plus`,
    `unquote` (as `parse_qsl` applies it, after turning '+' into spaces),
    `parse_qsl`/`parse_qs` with their default `keep_blank_values=False`, and
    `urlencode` over a dict of strings. */
module UrlQuote {
  import opened Wrappers
  import opened PyStr
  import opened OrderedDict
  import Utf8

  /** The characters `quote` never escapes: ASCII letters, digits and `_.-~`. */
  predicate AlwaysSafe(c: char) {
    IsAsciiLetter(c) || IsDigit(c) || c == '_' || c == '.' || c == '-' || c == '~'
  }

  predicate IsAscii(c: char) { c as int < 0x80 }

  function HexDigit(d: nat): (c: char)
    requires d < 16
    ensures AlwaysSafe(c) && IsHex(c) && HexValue(c) == d
  {
    if d < 10 then DigitChar(d) else ('A' as int + d - 10) as char
  }

  /** Each byte as `%XX` with upper-case hexadecimal digits. */
  function PercentEncode(bs: seq<Utf8.Byte>): string
  {
    if bs == [] then [] else ['%', HexDigit(bs[0] / 16), HexDigit(bs[0] % 16)] + PercentEncode(bs[1..])
  }

  function QuotePlusChar(c: char): string
  {
    if AlwaysSafe(c) then [c]
    else if c == ' ' then "+"
    else PercentEncode(Utf8.EncodeChar(c))
  }

  /** `quote_plus(s)`: safe characters kept, space as '+', every other
      character as the `%XX` escapes of its UTF-8 bytes. */
  function QuotePlus(s: string): string
  {
    if s == [] then [] else QuotePlusChar(s[0]) + QuotePlus(s[1..])
  }

  /** What `quote_plus` can produce. */
  predicate QuotedChar(c: char) { AlwaysSafe(c) || c == '+' || c == '%' }

  lemma {:induction false} PercentEncodeChars(bs: seq<Utf8.Byte>)
    ensures forall c :: c in PercentEncode(bs) ==> QuotedChar(c) && c != '+'
  {
    if bs != [] { PercentEncodeChars(bs[1..]); }
  }

  /** The output of `quote_plus` holds only safe characters, '+' and '%':
      no '&', '=', '#', '?', tab, CR or LF, and nothing outside ASCII. */
  lemma {:induction false} QuotePlusChars(s: string)
    ensures forall c :: c in QuotePlus(s) ==> QuotedChar(c)
    ensures |s| > 0 ==> |QuotePlus(s)| > 0
  {
    if s != [] {
      QuotePlusChars(s[1..]);
      PercentEncodeChars(Utf8.EncodeChar(s[0]));
    }
  }

  predicate IsHex(c: char) { IsDigit(c) || 'a' <= c <= 'f' || 'A' <= c <= 'F' }

  function HexValue(c: char): (v: nat)
    requires IsHex(c)
    ensures v < 16
  {
    if IsDigit(c) then c as int - '0' as int
    else if 'a' <= c <= 'f' then c as int - 'a' as int + 10
    else c as int - 'A' as int + 10
  }

  predicate AllAscii(s: string) {
    forall i :: 0 <= i < |s| ==> IsAscii(s[i])
  }

  /** `unquote_to_bytes` on ASCII text: a '%' followed by two hexadecimal
      digits (either case) is that byte; any other character is its own byte. */
  function UnquoteToBytes(s: string): (bs: seq<Utf8.Byte>)
    requires AllAscii(s)
    ensures |s| > 0 ==> |bs| > 0
  {
    if s == [] then []
    else if s[0] == '%' && |s| >= 3 && IsHex(s[1]) && IsHex(s[2]) then
      [HexValue(s[1]) * 16 + HexValue(s[2])] + UnquoteToBytes(s[3..])
    else [s[0] as int] + UnquoteToBytes(s[1..])
  }

  /** The length of the leading run of ASCII characters. */
  function AsciiRunLength(s: string): (k: nat)
    ensures k <= |s| && AllAscii(s[..k])
    ensures k < |s| ==> !IsAscii(s[k])
  {
    if s == [] || !IsAscii(s[0]) then 0
    else
      var k := 1 + AsciiRunLength(s[1..]);
      assert s[..k] == [s[0]] + s[1..][..k - 1];
      k
  }

  /** `unquote` once a '%' is present: each maximal ASCII run is unescaped to
      bytes and decoded as UTF-8 with replacement; other characters are kept. */
  function UnquoteRuns(s: string): (r: string)
    ensures |s| > 0 ==> |r| > 0
    decreases |s|
  {
    if s == [] then []
    else if IsAscii(s[0]) then
      var k := AsciiRunLength(s);
      Utf8.DecodeNonEmpty(UnquoteToBytes(s[..k]));
      Utf8.Decode(UnquoteToBytes(s[..k])) + UnquoteRuns(s[k..])
    else [s[0]] + UnquoteRuns(s[1..])
  }

  /** `unquote(s)`. */
  function Unquote(s: string): string
  {
    if '%' !in s then s else UnquoteRuns(s)
  }

  function PlusToSpace(s: string): (r: string)
    ensures |r| == |s|
    ensures forall i :: 0 <= i < |s| ==> r[i] == if s[i] == '+' then ' ' else s[i]
  {
    if s == [] then [] else [if s[0] == '+' then ' ' else s[0]] + PlusToSpace(s[1..])
  }

  /** How `parse_qsl` unescapes a name or a value. */
  function UnquotePlus(s: string): string
  {
    Unquote(PlusToSpace(s))
  }

  /** A non-empty field part never unescapes to the empty string. */
  lemma UnquotePlusNonEmpty(s: string)
    requires s != []
    ensures UnquotePlus(s) != []
  {
  }

  lemma {:induction false} UnquotePercentEncoded(bs: seq<Utf8.Byte>, rest: string)
    requires AllAscii(rest)
    ensures AllAscii(PercentEncode(bs) + rest)
    ensures UnquoteToBytes(PercentEncode(bs) + rest) == bs + UnquoteToBytes(rest)
  {
    if bs != [] {
      var h1, h2 := HexDigit(bs[0] / 16), HexDigit(bs[0] % 16);
      var tail := PercentEncode(bs[1..]) + rest;
      UnquotePercentEncoded(bs[1..], rest);
      assert PercentEncode(bs) + rest == ['%', h1, h2] + tail;
      UnquoteEscape(h1, h2, tail);
      ConsAppend(bs, UnquoteToBytes(rest));
    } else {
      assert PercentEncode(bs) + rest == rest;
    }
  }

  /** A `%XX` escape in front of ASCII text unescapes to its byte. */
  lemma UnquoteEscape(h1: char, h2: char, tail: string)
    requires IsHex(h1) && IsHex(h2) && AllAscii(tail)
    ensures AllAscii(['%', h1, h2] + tail)
    ensures UnquoteToBytes(['%', h1, h2] + tail) == [HexValue(h1) * 16 + HexValue(h2)] + UnquoteToBytes(tail)
  {
    var s := ['%', h1, h2] + tail;
    assert s[3..] == tail;
  }

  lemma ConsAppend(bs: seq<Utf8.Byte>, t: seq<Utf8.Byte>)
    requires bs != []
    ensures bs + t == [bs[0]] + (bs[1..] + t)
  {
    assert bs == [bs[0]] + bs[1..];
  }

  lemma PlusToSpaceAppend(a: string, b: string)
    ensures PlusToSpace(a + b) == PlusToSpace(a) + PlusToSpace(b)
  {
  }

  lemma PlusToSpaceNoPlus(s: string)
    requires '+' !in s
    ensures PlusToSpace(s) == s
  {
    forall i | 0 <= i < |s| ensures PlusToSpace(s)[i] == s[i] {
      assert s[i] in s;
    }
  }

  /** One quoted character, with '+' read back as a space, unescapes to the
      UTF-8 encoding of that character. */
  lemma UnquoteQuotedChar(c: char, rest: string)
    requires AllAscii(rest)
    ensures AllAscii(PlusToSpace(QuotePlusChar(c)) + rest)
    ensures UnquoteToBytes(PlusToSpace(QuotePlusChar(c)) + rest) == Utf8.EncodeChar(c) + UnquoteToBytes(rest)
  {
    var piece := PlusToSpace(QuotePlusChar(c));
    if AlwaysSafe(c) || c == ' ' {
      assert piece == [c];
      assert (piece + rest)[1..] == rest;
    } else {
      PercentEncodeChars(Utf8.EncodeChar(c));
      PlusToSpaceNoPlus(PercentEncode(Utf8.EncodeChar(c)));
      UnquotePercentEncoded(Utf8.EncodeChar(c), rest);
    }
  }

  /** After '+' is read back as a space, the escaped text unescapes to the
      UTF-8 encoding of the original. */
  lemma {:induction false} UnquoteQuoted(s: string)
    ensures AllAscii(PlusToSpace(QuotePlus(s)))
    ensures UnquoteToBytes(PlusToSpace(QuotePlus(s))) == Utf8.Encode(s)
  {
    if s != [] {
      UnquoteQuoted(s[1..]);
      PlusToSpaceAppend(QuotePlusChar(s[0]), QuotePlus(s[1..]));
      UnquoteQuotedChar(s[0], PlusToSpace(QuotePlus(s[1..])));
    }
  }

  /** Without any escape, the quoted text read back is the original. */
  lemma {:induction false} QuotedWithoutPercent(s: string)
    requires '%' !in PlusToSpace(QuotePlus(s))
    ensures PlusToSpace(QuotePlus(s)) == s
  {
    if s != [] {
      PlusToSpaceAppend(QuotePlusChar(s[0]), QuotePlus(s[1..]));
      QuotedWithoutPercent(s[1..]);
    }
  }

  lemma UnquoteRunsAscii(s: string)
    requires AllAscii(s)
    ensures UnquoteRuns(s) == Utf8.Decode(UnquoteToBytes(s))
  {
    if s != [] {
      assert AsciiRunLength(s) == |s|;
      assert s[..|s|] == s;
    }
  }

  /** `parse_qsl` reads back exactly what `quote_plus` wrote. */
  lemma QuotePlusRoundTrip(s: string)
    ensures UnquotePlus(QuotePlus(s)) == s
  {
    var t := PlusToSpace(QuotePlus(s));
    if '%' in t {
      UnquoteQuoted(s);
      UnquoteRunsAscii(t);
      Utf8.DecodeEncode(s);
    } else {
      QuotedWithoutPercent(s);
    }
  }

  /** One field of `parse_qsl`: an empty field, a field without '=' and a
      field with an empty value are dropped (`keep_blank_values=False`). */
  function ParseField(field: string): (r: Option<(string, string)>)
    ensures r.Some? ==> r.value.1 != []
  {
    if field == [] then None
    else
      var i := IndexOfChar(field, '=');
      if i == |field| || i + 1 == |field| then None
      else
        UnquotePlusNonEmpty(field[i + 1..]);
        Some((UnquotePlus(field[..i]), UnquotePlus(field[i + 1..])))
  }

  function ParseFields(fields: seq<string>): seq<(string, string)>
  {
    if fields == [] then []
    else
      match ParseField(fields[0])
      case Some(p) => [p] + ParseFields(fields[1..])
      case None => ParseFields(fields[1..])
  }

  /** Every value `parse_qsl` returns is non-empty. */
  predicate NonEmptyValues(d: seq<(string, string)>) {
    forall i :: 0 <= i < |d| ==> d[i].1 != []
  }

  lemma {:induction false} ParseFieldsNonEmpty(fields: seq<string>)
    ensures NonEmptyValues(ParseFields(fields))
  {
    if fields != [] { ParseFieldsNonEmpty(fields[1..]); }
  }

  /** `parse_qsl(qs)`: the name/value pairs in order, duplicates kept. */
  function ParseQsl(qs: string): seq<(string, string)>
  {
    ParseFields(Split(qs, '&'))
  }

  /** `parse_qs` collecting the pairs: a new name gets a one-element list,
      a repeated name has its value appended to its list. */
  function Group(pairs: seq<(string, string)>): Dict<seq<string>>
    decreases |pairs|
  {
    if pairs == [] then []
    else
      var g := Group(pairs[..|pairs| - 1]);
      var (k, v) := pairs[|pairs| - 1];
      match Lookup(g, k)
      case Some(vs) => Set(g, k, vs + [v])
      case None => Set(g, k, [v])
  }

  /** `parse_qs(qs)`. */
  function ParseQs(qs: string): Dict<seq<string>>
  {
    Group(ParseQsl(qs))
  }

  /** The first pair of every name, in the order the names first appear. */
  function FirstOccurrences(pairs: seq<(string, string)>): Dict<string>
    decreases |pairs|
  {
    if pairs == [] then []
    else
      var f := FirstOccurrences(pairs[..|pairs| - 1]);
      var last := pairs[|pairs| - 1];
      if Lookup(f, last.0).Some? then f else f + [last]
  }

  /** The first element of every list, keyed as before. */
  function Heads(g: Dict<seq<string>>): Dict<string>
    requires forall i :: 0 <= i < |g| ==> g[i].1 != []
  {
    seq(|g|, i requires 0 <= i < |g| => (g[i].0, g[i].1[0]))
  }

  predicate NonEmptyLists(g: Dict<seq<string>>) {
    forall i :: 0 <= i < |g| ==> g[i].1 != []
  }

  lemma HeadsKeys(g: Dict<seq<string>>, k: string)
    requires NonEmptyLists(g)
    ensures Lookup(Heads(g), k).Some? <==> Lookup(g, k).Some?
  {
    var h := Heads(g);
    if Lookup(g, k).Some? {
      var i := KeyIndex(g, k);
      assert h[i].0 == k;
    }
    if Lookup(h, k).Some? {
      var i := KeyIndex(h, k);
      assert g[i].0 == k;
    }
  }

  lemma HeadsAppendValue(g: Dict<seq<string>>, k: string, vs: seq<string>, v: string)
    requires NonEmptyLists(g) && Lookup(g, k) == Some(vs)
    ensures NonEmptyLists(Set(g, k, vs + [v]))
    ensures Heads(Set(g, k, vs + [v])) == Heads(g)
  {
  }

  lemma HeadsNewKey(g: Dict<seq<string>>, k: string, v: string)
    requires NonEmptyLists(g) && Lookup(g, k).None?
    ensures NonEmptyLists(Set(g, k, [v]))
    ensures Heads(Set(g, k, [v])) == Heads(g) + [(k, v)]
  {
  }

  /** `parse_qs` yields a dict whose lists are non-empty and whose first
      elements are the first value of each name, names in order of first
      appearance. */
  lemma {:induction false} GroupHeads(pairs: seq<(string, string)>)
    ensures NonEmptyLists(Group(pairs))
    ensures DistinctKeys(Group(pairs))
    ensures Heads(Group(pairs)) == FirstOccurrences(pairs)
  {
    if pairs != [] {
      var init := pairs[..|pairs| - 1];
      GroupHeads(init);
      var g := Group(init);
      var (k, v) := pairs[|pairs| - 1];
      HeadsKeys(g, k);
      match Lookup(g, k)
      case Some(vs) => HeadsAppendValue(g, k, vs, v);
      case None => HeadsNewKey(g, k, v);
    }
  }

  /** With distinct names, keeping first occurrences keeps everything. */
  lemma {:induction false} FirstOccurrencesDistinct(d: Dict<string>)
    requires DistinctKeys(d)
    ensures FirstOccurrences(d) == d
  {
    if d != [] {
      var init := d[..|d| - 1];
      var x := d[|d| - 1];
      assert DistinctKeys(init);
      FirstOccurrencesDistinct(init);
      KeyIndexIs(init, x.0, |init|);
      assert d == init + [x];
    }
  }

  /** The first value of a name is what `Lookup` finds on the raw pairs. */
  lemma {:induction false} FirstOccurrencesLookup(pairs: seq<(string, string)>, k: string)
    ensures DistinctKeys(FirstOccurrences(pairs))
    ensures Lookup(FirstOccurrences(pairs), k) == Lookup(pairs, k)
  {
    if pairs != [] {
      var init := pairs[..|pairs| - 1];
      var last := pairs[|pairs| - 1];
      FirstOccurrencesLookup(init, k);
      FirstOccurrencesLookup(init, last.0);
      assert pairs == init + [last];
      FirstOccurrencesStep(init, last, FirstOccurrences(init), k);
    }
  }

  /** Appending a pair to the raw pairs keeps what `FirstOccurrences` keeps,
      given that it agrees with the raw pairs so far. */
  lemma FirstOccurrencesStep(init: seq<(string, string)>, last: (string, string), f: Dict<string>, k: string)
    requires DistinctKeys(f)
    requires Lookup(f, k) == Lookup(init, k) && Lookup(f, last.0) == Lookup(init, last.0)
    ensures var g := if Lookup(f, last.0).Some? then f else f + [last];
      DistinctKeys(g) && Lookup(g, k) == Lookup(init + [last], k)
  {
    LookupAppend(init, last, k);
    if Lookup(f, last.0).None? {
      LookupAppend(f, last, k);
      assert Set(f, last.0, last.1) == f + [last];
    }
  }

  /** A pair appended after the others is found only for a name not
      already present. */
  lemma LookupAppend(d: Dict<string>, x: (string, string), k: string)
    ensures Lookup(d + [x], k) == if Lookup(d, k).Some? then Lookup(d, k) else if k == x.0 then Some(x.1) else None
  {
    if Lookup(d, k).Some? {
      KeyIndexIs(d + [x], k, KeyIndex(d, k));
    } else if k == x.0 {
      KeyIndexIs(d + [x], k, |d|);
    } else {
      KeyIndexIs(d + [x], k, |d| + 1);
    }
  }

  lemma KeyIndexExtend(init: seq<(string, string)>, x: (string, string), k: string)
    requires Lookup(init, k).Some?
    ensures KeyIndex(init + [x], k) == KeyIndex(init, k)
  {
    KeyIndexIs(init + [x], k, KeyIndex(init, k));
  }

  /** Appending a name found later than every kept one keeps the order. */
  lemma KeyOrderExtend(pairs: seq<(string, string)>, f: seq<(string, string)>, last: (string, string),
                       g: seq<(string, string)>)
    requires g == f + [last]
    requires forall i, j :: 0 <= i < j < |f| ==> KeyIndex(pairs, f[i].0) < KeyIndex(pairs, f[j].0)
    requires forall k :: 0 <= k < |f| ==> KeyIndex(pairs, f[k].0) < KeyIndex(pairs, last.0)
    ensures forall i, j :: 0 <= i < j < |g| ==> KeyIndex(pairs, g[i].0) < KeyIndex(pairs, g[j].0)
  {
    forall i, j | 0 <= i < j < |g|
      ensures KeyIndex(pairs, g[i].0) < KeyIndex(pairs, g[j].0)
    {
      if j < |f| {
        assert g[i] == f[i] && g[j] == f[j];
      } else {
        assert g[i] == f[i] && g[j] == last;
      }
    }
  }

  /** The names `parse_qs` keeps come in the order of their first appearance. */
  lemma {:induction false} FirstOccurrencesOrder(pairs: seq<(string, string)>)
    ensures forall k :: 0 <= k < |FirstOccurrences(pairs)| ==>
      Lookup(pairs, FirstOccurrences(pairs)[k].0).Some?
    ensures forall i, j :: 0 <= i < j < |FirstOccurrences(pairs)| ==>
      KeyIndex(pairs, FirstOccurrences(pairs)[i].0) < KeyIndex(pairs, FirstOccurrences(pairs)[j].0)
  {
    if pairs != [] {
      var init := pairs[..|pairs| - 1];
      var last := pairs[|pairs| - 1];
      assert pairs == init + [last];
      FirstOccurrencesOrder(init);
      var f := FirstOccurrences(init);
      forall k | 0 <= k < |f|
        ensures KeyIndex(pairs, f[k].0) == KeyIndex(init, f[k].0) < |init|
        ensures Lookup(pairs, f[k].0).Some?
      {
        KeyIndexExtend(init, last, f[k].0);
      }
      if Lookup(f, last.0).None? {
        FirstOccurrencesLookup(init, last.0);
        KeyIndexIs(pairs, last.0, |init|);
        var g := f + [last];
        assert FirstOccurrences(pairs) == g;
        assert Lookup(pairs, last.0).Some?;
        KeyOrderExtend(pairs, f, last, g);
      } else {
        assert FirstOccurrences(pairs) == f;
      }
    }
  }

  /** `parse_qs` keeps only non-empty values, so the first ones are non-empty. */
  lemma {:induction false} FirstOccurrencesNonEmpty(pairs: seq<(string, string)>)
    requires NonEmptyValues(pairs)
    ensures NonEmptyValues(FirstOccurrences(pairs))
  {
    if pairs != [] {
      FirstOccurrencesNonEmpty(pairs[..|pairs| - 1]);
    }
  }

  function EncodeItem(item: (string, string)): string
  {
    QuotePlus(item.0) + "=" + QuotePlus(item.1)
  }

  function EncodeItems(d: Dict<string>): (fields: seq<string>)
    ensures |fields| == |d|
  {
    seq(|d|, i requires 0 <= i < |d| => EncodeItem(d[i]))
  }

  /** `urlencode(d)`: `quote_plus(name) + '=' + quote_plus(value)` per item,
      joined by '&'. */
  function UrlEncode(d: Dict<string>): string
  {
    Join(EncodeItems(d), "&")
  }

  /** A field `name=value` with no '=' in the name and a non-empty value. */
  lemma ParseFieldSplit(name: string, value: string)
    requires '=' !in name && value != []
    ensures ParseField(name + "=" + value) == Some((UnquotePlus(name), UnquotePlus(value)))
  {
    var field := name + "=" + value;
    assert field == name + ("=" + value);
    IndexOfCharAppend(name, "=" + value, '=');
    assert field[..|name|] == name && field[|name| + 1..] == value;
  }

  /** An encoded item holds no '&'. */
  lemma EncodeItemNoAmpersand(item: (string, string))
    ensures '&' !in EncodeItem(item)
  {
    QuotePlusChars(item.0);
    QuotePlusChars(item.1);
  }

  /** An encoded item with a non-empty value parses back to the item. */
  lemma EncodeItemParses(item: (string, string))
    requires item.1 != []
    ensures ParseField(EncodeItem(item)) == Some(item)
  {
    QuotePlusChars(item.0);
    assert QuotePlus(item.1) != [];
    ParseFieldSplit(QuotePlus(item.0), QuotePlus(item.1));
    QuotePlusRoundTrip(item.0);
    QuotePlusRoundTrip(item.1);
  }

  lemma EncodeItemsTail(d: Dict<string>)
    requires d != []
    ensures EncodeItems(d)[0] == EncodeItem(d[0])
    ensures EncodeItems(d)[1..] == EncodeItems(d[1..])
  {
  }

  /** The first encoded item parses back to the first item. */
  lemma ParseEncodedHead(d: Dict<string>)
    requires d != [] && d[0].1 != []
    ensures ParseFields(EncodeItems(d)) == [d[0]] + ParseFields(EncodeItems(d[1..]))
  {
    EncodeItemParses(d[0]);
    EncodeItemsTail(d);
  }

  lemma {:induction false} ParseEncodedItems(d: Dict<string>)
    requires NonEmptyValues(d)
    ensures ParseFields(EncodeItems(d)) == d
  {
    if d != [] {
      ParseEncodedHead(d);
      ParseEncodedItems(d[1..]);
      assert d == [d[0]] + d[1..];
    }
  }

  /** `urlencode` writes only what `quote_plus` writes, '=' and '&': no
      '#', no '?' and none of tab, CR, LF. */
  lemma {:induction false} UrlEncodeChars(d: Dict<string>)
    ensures forall c :: c in UrlEncode(d) ==> QuotedChar(c) || c == '=' || c == '&'
  {
    if d != [] {
      QuotePlusChars(d[0].0);
      QuotePlusChars(d[0].1);
      if |d| > 1 {
        assert EncodeItems(d)[1..] == EncodeItems(d[1..]);
        UrlEncodeChars(d[1..]);
      }
    }
  }

  /** `parse_qsl(urlencode(d)) == d` for a dict whose values are non-empty. */
  lemma ParseQslUrlEncode(d: Dict<string>)
    requires NonEmptyValues(d)
    ensures ParseQsl(UrlEncode(d)) == d
  {
    if d == [] {
      assert Split("", '&') == [""];
    } else {
      forall k | 0 <= k < |d| ensures '&' !in EncodeItems(d)[k] {
        EncodeItemNoAmpersand(d[k]);
      }
      SplitJoin(EncodeItems(d), '&');
      ParseEncodedItems(d);
    }
  }
}
