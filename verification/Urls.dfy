/**
 * `urllib.parse.urlparse` and `urllib.parse.parse_qs` as the crawlers use
 * them: a URL is cut into scheme, network location, path, path parameters,
 * query and fragment (the generic syntax of section 3 of RFC 3986), and a
 * query string into a map from names to the list of their values.
 * Percent-decoding (section 2.1 of RFC 3986) is not re-implemented: it is
 * the parameter `unquote`.
 */
module Urls {
  import opened Outcomes
  import opened Strings

  /** The six fields of `urlparse`'s result. */
  datatype Url = Url(scheme: string, netloc: string, path: string, params: string, query: string, fragment: string)

  // ---------------------------------------------------------------------------
  // Character classes
  // ---------------------------------------------------------------------------

  predicate IsAsciiLetter(c: char) {
    'a' <= c <= 'z' || 'A' <= c <= 'Z'
  }

  predicate IsSchemeChar(c: char) {
    IsAsciiLetter(c) || IsDigit(c) || c == '+' || c == '-' || c == '.'
  }

  /** A string `urlsplit` accepts as a scheme: an ASCII letter, then scheme characters. */
  predicate IsScheme(s: string) {
    |s| > 0 && IsAsciiLetter(s[0]) && forall i :: 0 <= i < |s| ==> IsSchemeChar(s[i])
  }

  predicate IsUpper(c: char) {
    'A' <= c <= 'Z'
  }

  /** `s.lower()` on ASCII letters. */
  function AsciiLower(s: string): (r: string)
    ensures |r| == |s|
    ensures forall i :: 0 <= i < |s| ==> !IsUpper(r[i])
    ensures forall i :: 0 <= i < |s| && !IsUpper(s[i]) ==> r[i] == s[i]
  {
    seq(|s|, i requires 0 <= i < |s| => if IsUpper(s[i]) then (s[i] as int + 32) as char else s[i])
  }

  /** The characters that end a network location. */
  predicate IsNetlocDelim(c: char) {
    c == '/' || c == '?' || c == '#'
  }

  /** The first index at or after `from` holding `/`, `?` or `#`, or the length. */
  function DelimFrom(s: string, from: nat): (j: nat)
    requires from <= |s|
    ensures from <= j <= |s|
    ensures j == |s| || IsNetlocDelim(s[j])
    ensures forall i :: from <= i < j ==> !IsNetlocDelim(s[i])
    decreases |s| - from
  {
    if from == |s| || IsNetlocDelim(s[from]) then from else DelimFrom(s, from + 1)
  }

  /** `s.split(c, 1)` as a pair, the second half empty when `c` is absent. */
  function CutAt(s: string, c: char): (r: (string, string))
    ensures c !in r.0
    ensures r.0 + [c] + r.1 == s || (c !in s && r == (s, ""))
  {
    var parts := SplitOnce(s, [c]);
    ContainsChar(parts[0], c);
    ContainsChar(s, c);
    if |parts| == 2 then (parts[0], parts[1]) else (s, "")
  }

  lemma CutAtFound(a: string, c: char, b: string)
    requires c !in a
    ensures CutAt(a + [c] + b, c) == (a, b)
  {
    SplitOnceChar(a, c, b);
  }

  lemma CutAtAbsent(s: string, c: char)
    requires c !in s
    ensures CutAt(s, c) == (s, "")
  {
    SplitOnceAbsent(s, c);
  }

  // ---------------------------------------------------------------------------
  // urlsplit / urlparse
  // ---------------------------------------------------------------------------

  /** The scheme (lower-cased) and the rest, when the text before the first `:` is a scheme. */
  function SplitScheme(url: string): (string, string) {
    match IndexOf(url, ":")
    case Some(i) =>
      if i > 0 && IsScheme(url[..i]) then (AsciiLower(url[..i]), url[i + 1..]) else ("", url)
    case None => ("", url)
  }

  /** `urlsplit`: an unbalanced `[` or `]` in the network location raises `ValueError`. */
  function UrlSplit(url: string): (r: Result<Url>)
    ensures r.Err? ==> r.error == ValueError
    ensures r.Ok? ==> r.value.params == ""
    ensures r.Ok? ==> ('[' in r.value.netloc <==> ']' in r.value.netloc)
    ensures r.Ok? ==> '#' !in r.value.path && '?' !in r.value.path && '#' !in r.value.query
  {
    var (scheme, rest) := SplitScheme(url);
    var (netloc, rest2) :=
      if StartsWith(rest, "//") then
        var e := DelimFrom(rest, 2);
        (rest[2..e], rest[e..])
      else ("", rest);
    if ('[' in netloc && ']' !in netloc) || (']' in netloc && '[' !in netloc) then Err(ValueError)
    else
      var (rest3, fragment) := CutAt(rest2, '#');
      var (path, query) := CutAt(rest3, '?');
      Ok(Url(scheme, netloc, path, "", query, fragment))
  }

  /** The schemes whose last path segment may carry `;parameters`. */
  const UsesParams: set<string> := {"", "ftp", "hdl", "prospero", "http", "imap", "https", "shttp",
                                    "rtsp", "rtsps", "rtspu", "sip", "sips", "mms", "sftp", "tel"}

  /** `_splitparams`: parameters start at the first `;` of the last path segment. */
  function SplitParams(path: string): (r: (string, string))
    requires ';' in path
    ensures r.0 == path || r.0 + ";" + r.1 == path
    ensures r.0 == path ==> r.1 == ""
  {
    match LastIndexOfChar(path, '/')
    case Some(slash) =>
      (match IndexFrom(path, ";", slash)
       case None => (path, "")
       case Some(i) =>
         assert path == path[..i] + ";" + path[i + 1..];
         (path[..i], path[i + 1..]))
    case None =>
      (match IndexOf(path, ";")
       case None => (path, "")
       case Some(i) =>
         assert path == path[..i] + ";" + path[i + 1..];
         (path[..i], path[i + 1..]))
  }

  /** `urllib.parse.urlparse(url)` */
  function UrlParse(url: string): (r: Result<Url>)
  {
    match UrlSplit(url)
    case Err(e) => Err(e)
    case Ok(u) =>
      if u.scheme in UsesParams && ';' in u.path then
        var (path, params) := SplitParams(u.path);
        Ok(u.(path := path, params := params))
      else Ok(u)
  }

  /** The `?query` part `urlunparse` writes, empty for an empty query. */
  function QueryPart(u: Url): string {
    if u.query != "" then "?" + u.query else ""
  }

  /** The `#fragment` part `urlunparse` writes, empty for an empty fragment. */
  function FragmentPart(u: Url): string {
    if u.fragment != "" then "#" + u.fragment else ""
  }

  /** Everything after the network location. */
  function Tail(u: Url): string {
    u.path + QueryPart(u) + FragmentPart(u)
  }

  /** The URL `urlunparse` writes for a record without path parameters. */
  function Unparse(u: Url): string {
    u.scheme + "://" + u.netloc + Tail(u)
  }

  /**
   * A record `urlparse` can give back unchanged: a lower-case scheme, a
   * host free of delimiters and brackets, a path that is empty or absolute
   * with no `?`, `#` or `;`, and a query without `#`.
   */
  predicate WellFormed(u: Url) {
    && IsScheme(u.scheme) && (forall i :: 0 <= i < |u.scheme| ==> !IsUpper(u.scheme[i]))
    && (forall i :: 0 <= i < |u.netloc| ==> !IsNetlocDelim(u.netloc[i]))
    && '[' !in u.netloc && ']' !in u.netloc
    && (|u.path| == 0 || u.path[0] == '/')
    && '?' !in u.path && '#' !in u.path && ';' !in u.path
    && '#' !in u.query
    && u.params == ""
  }

  /** The first `:` of a URL built from a scheme is the one after the scheme. */
  lemma SchemeSplits(scheme: string, rest: string)
    requires IsScheme(scheme) && forall i :: 0 <= i < |scheme| ==> !IsUpper(scheme[i])
    ensures SplitScheme(scheme + ":" + rest) == (scheme, rest)
  {
    var url := scheme + ":" + rest;
    assert ':' !in scheme by {
      forall i | 0 <= i < |scheme| ensures scheme[i] != ':' {
        assert IsSchemeChar(scheme[i]);
      }
    }
    FirstChar(scheme, ':', rest);
    assert url[..|scheme|] == scheme;
    assert url[|scheme| + 1..] == rest;
    assert AsciiLower(scheme) == scheme;
  }

  /** The network location runs from after `//` to the first delimiter. */
  lemma NetlocSplits(netloc: string, tail: string)
    requires forall i :: 0 <= i < |netloc| ==> !IsNetlocDelim(netloc[i])
    requires |tail| == 0 || IsNetlocDelim(tail[0])
    ensures DelimFrom("//" + netloc + tail, 2) == 2 + |netloc|
  {
    var s := "//" + netloc + tail;
    var n := 2 + |netloc|;
    forall i | 2 <= i < n ensures !IsNetlocDelim(s[i]) {
      assert s[i] == netloc[i - 2];
    }
    assert n == |s| || IsNetlocDelim(s[n]) by {
      if n < |s| { assert s[n] == tail[0]; }
    }
  }

  /** The fragment and then the query come off the tail as they were put on. */
  lemma TailCuts(u: Url)
    requires WellFormed(u)
    ensures CutAt(Tail(u), '#') == (u.path + QueryPart(u), u.fragment)
    ensures CutAt(u.path + QueryPart(u), '?') == (u.path, u.query)
  {
    var q := QueryPart(u);
    assert '#' !in u.path + q by {
      forall i | 0 <= i < |u.path + q| ensures (u.path + q)[i] != '#' {
        if i < |u.path| { assert (u.path + q)[i] == u.path[i]; }
        else if i > |u.path| { assert (u.path + q)[i] == u.query[i - |u.path| - 1]; }
      }
    }
    if u.fragment != "" {
      assert Tail(u) == (u.path + q) + ['#'] + u.fragment;
      CutAtFound(u.path + q, '#', u.fragment);
    } else {
      assert Tail(u) == u.path + q;
      CutAtAbsent(Tail(u), '#');
    }
    if u.query != "" {
      assert u.path + q == u.path + ['?'] + u.query;
      CutAtFound(u.path, '?', u.query);
    } else {
      assert u.path + q == u.path;
      CutAtAbsent(u.path, '?');
    }
  }

  /** After the scheme, the network location and the tail separate at the first delimiter. */
  lemma AuthoritySplits(u: Url)
    requires WellFormed(u)
    ensures var rest := "//" + u.netloc + Tail(u);
      StartsWith(rest, "//") && DelimFrom(rest, 2) == 2 + |u.netloc|
      && rest[2..2 + |u.netloc|] == u.netloc && rest[2 + |u.netloc|..] == Tail(u)
  {
    var tail := Tail(u);
    var rest := "//" + u.netloc + tail;
    assert |tail| == 0 || IsNetlocDelim(tail[0]) by {
      if |tail| > 0 {
        if |u.path| > 0 { assert tail[0] == u.path[0]; }
        else if |QueryPart(u)| > 0 { assert tail[0] == '?'; }
        else { assert tail[0] == '#'; }
      }
    }
    NetlocSplits(u.netloc, tail);
    assert rest[..2] == "//";
  }

  /** An unparsed URL is the scheme, a colon, and the `//`-led rest. */
  lemma UnparseLayout(u: Url)
    ensures Unparse(u) == u.scheme + ":" + ("//" + u.netloc + Tail(u))
  {
  }

  /** `urlsplit` inverts `urlunsplit` on well-formed records. */
  lemma SplitUnparse(u: Url)
    requires WellFormed(u)
    ensures UrlSplit(Unparse(u)) == Ok(u)
  {
    var rest := "//" + u.netloc + Tail(u);
    UnparseLayout(u);
    SchemeSplits(u.scheme, rest);
    AuthoritySplits(u);
    TailCuts(u);
  }

  /** `urlparse` inverts `urlunparse` on well-formed records. */
  lemma ParseUnparse(u: Url)
    requires WellFormed(u)
    ensures UrlParse(Unparse(u)) == Ok(u)
  {
    SplitUnparse(u);
  }

  // ---------------------------------------------------------------------------
  // parse_qs
  // ---------------------------------------------------------------------------

  /** A name or value as `parse_qsl` decodes it: `+` becomes a space, then percent-decoding. */
  function DecodeComponent(s: string, unquote: string -> string): string {
    unquote(MapChar(s, '+', ' '))
  }

  /**
   * `parse_qsl` over the `&`-separated fields: empty fields, fields without
   * `=` and fields with an empty value are dropped (the defaults
   * `keep_blank_values=False`, `strict_parsing=False`).
   */
  function FieldPairs(fields: seq<string>, unquote: string -> string): (ps: seq<(string, string)>)
    ensures |ps| <= |fields|
  {
    if |fields| == 0 then []
    else
      var f := fields[0];
      var nv := SplitOnce(f, "=");
      var here := if |f| == 0 || |nv| != 2 || |nv[1]| == 0 then []
                  else [(DecodeComponent(nv[0], unquote), DecodeComponent(nv[1], unquote))];
      here + FieldPairs(fields[1..], unquote)
  }

  /** `parse_qsl(qs)` */
  function QueryPairs(qs: string, unquote: string -> string): seq<(string, string)> {
    FieldPairs(Split(qs, "&"), unquote)
  }

  /** The values paired with `k`, in order. */
  function ValuesOf(ps: seq<(string, string)>, k: string): seq<string> {
    if |ps| == 0 then []
    else (if ps[0].0 == k then [ps[0].1] else []) + ValuesOf(ps[1..], k)
  }

  lemma {:induction false} ValuesOfSnoc(ps: seq<(string, string)>, p: (string, string), k: string)
    ensures ValuesOf(ps + [p], k) == ValuesOf(ps, k) + (if p.0 == k then [p.1] else [])
    decreases |ps|
  {
    if |ps| == 0 {
      assert ps + [p] == [p];
    } else {
      var q := ps + [p];
      assert q[0] == ps[0] && q[1..] == ps[1..] + [p];
      ValuesOfSnoc(ps[1..], p, k);
      var head := if ps[0].0 == k then [ps[0].1] else [];
      var tail := if p.0 == k then [p.1] else [];
      assert ValuesOf(q, k) == head + (ValuesOf(ps[1..], k) + tail);
      assert ValuesOf(ps, k) == head + ValuesOf(ps[1..], k);
      AppendAssociates(head, ValuesOf(ps[1..], k), tail);
    }
  }

  lemma {:induction false} ValuesOfEmpty(ps: seq<(string, string)>, k: string)
    ensures ValuesOf(ps, k) == [] <==> forall i :: 0 <= i < |ps| ==> ps[i].0 != k
    decreases |ps|
  {
    if |ps| > 0 {
      ValuesOfEmpty(ps[1..], k);
      assert forall i :: 1 <= i < |ps| ==> ps[i] == ps[1..][i - 1];
    }
  }

  /**
   * `parse_qs`'s grouping: each name maps to all its values in order, and
   * exactly the names that occur are keys.
   */
  function Group(ps: seq<(string, string)>): (m: map<string, seq<string>>)
    ensures forall k :: k in m <==> ValuesOf(ps, k) != []
    ensures forall k :: k in m ==> m[k] == ValuesOf(ps, k)
  {
    if |ps| == 0 then map[]
    else
      var init := ps[..|ps| - 1];
      var last := ps[|ps| - 1];
      var m := Group(init);
      assert ps == init + [last];
      forall k ensures ValuesOf(ps, k) == ValuesOf(init, k) + (if last.0 == k then [last.1] else []) {
        ValuesOfSnoc(init, last, k);
      }
      m[last.0 := (if last.0 in m then m[last.0] else []) + [last.1]]
  }

  /** `parse_qs(qs)` */
  function ParseQs(qs: string, unquote: string -> string): map<string, seq<string>> {
    Group(QueryPairs(qs, unquote))
  }

  /** `params.get(k, [''])[0]` */
  function FirstValue(m: map<string, seq<string>>, k: string): string {
    if k in m && |m[k]| > 0 then m[k][0] else ""
  }

  /** A name occurs as a key exactly when some pair carries it. */
  lemma ParseQsKeys(qs: string, unquote: string -> string, k: string)
    ensures k in ParseQs(qs, unquote) <==>
      exists i :: 0 <= i < |QueryPairs(qs, unquote)| && QueryPairs(qs, unquote)[i].0 == k
  {
    ValuesOfEmpty(QueryPairs(qs, unquote), k);
  }

  /**
   * A query that opens with `name=value` (no `&` in either, no `=` in the
   * name, a non-empty value) gives that value first for the decoded name.
   */
  lemma LeadingField(name: string, value: string, rest: string, unquote: string -> string)
    requires '&' !in name && '=' !in name && '&' !in value && |value| > 0
    ensures var k := DecodeComponent(name, unquote);
      k in ParseQs(name + "=" + value + "&" + rest, unquote)
      && FirstValue(ParseQs(name + "=" + value + "&" + rest, unquote), k) == DecodeComponent(value, unquote)
  {
    var field := name + "=" + value;
    var qs := field + "&" + rest;
    assert '&' !in field by {
      forall i | 0 <= i < |field| ensures field[i] != '&' {
        if i < |name| { assert field[i] == name[i]; }
        else if i > |name| { assert field[i] == value[i - |name| - 1]; }
      }
    }
    ContainsChar(field, '&');
    assert "&"[..0] == "";
    assert field + "&"[..0] == field;
    SplitConcat(field, "&", rest);
    SplitOnceChar(name, '=', value);
    var ps := QueryPairs(qs, unquote);
    var k := DecodeComponent(name, unquote);
    var fields := Split(qs, "&");
    assert fields[0] == field;
    assert fields[1..] == Split(rest, "&");
    assert ps == [(k, DecodeComponent(value, unquote))] + FieldPairs(fields[1..], unquote);
    assert ValuesOf(ps, k)[0] == DecodeComponent(value, unquote);
  }

  /** The same when the field is the whole query. */
  lemma SoleField(name: string, value: string, unquote: string -> string)
    requires '&' !in name && '=' !in name && '&' !in value && |value| > 0
    ensures ParseQs(name + "=" + value, unquote)
      == map[DecodeComponent(name, unquote) := [DecodeComponent(value, unquote)]]
  {
    var field := name + "=" + value;
    FieldHasNoAmpersand(name, value);
    ContainsChar(field, '&');
    SplitNoSep(field, "&");
    SplitOnceChar(name, '=', value);
    var k := DecodeComponent(name, unquote);
    var ps := QueryPairs(field, unquote);
    assert ps == [(k, DecodeComponent(value, unquote))];
    GroupOne(k, DecodeComponent(value, unquote));
  }

  lemma FieldHasNoAmpersand(name: string, value: string)
    requires '&' !in name && '&' !in value
    ensures '&' !in name + "=" + value
  {
    var field := name + "=" + value;
    forall i | 0 <= i < |field| ensures field[i] != '&' {
      if i < |name| { assert field[i] == name[i]; }
      else if i > |name| { assert field[i] == value[i - |name| - 1]; }
    }
  }

  /** A single pair groups into a one-entry map. */
  lemma GroupOne(k: string, v: string)
    ensures Group([(k, v)]) == map[k := [v]]
  {
    var ps := [(k, v)];
    var m := Group(ps);
    assert ValuesOf(ps, k) == [v];
    forall j | j != k ensures j !in m {
      assert ValuesOf(ps, j) == [];
    }
  }
}
