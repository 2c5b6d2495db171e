/**
 * The cookie converter: a browser's `name=value; name=value` cookie string
 * rewritten as a Netscape cookie file that the Bilibili crawler can load.
 */
module Cookies {
  import opened Outcomes
  import opened Strings

  /** The two comment lines and the blank line every cookie file opens with. */
  const Header: string := "# Netscape HTTP Cookie File\n# This file is generated automatically.\n\n"

  /** The domain the converted cookies are issued for. */
  const BilibiliDomain: string := ".bilibili.com"

  /** What separates two cookies in the browser's string. */
  const PairSeparator: string := "; "

  /** The fixed middle fields of a record: subdomains, path, secure, expiry. */
  const Flags: string := "\tTRUE\t/\tFALSE\t0\t"

  /** One record of the file, without its line end. */
  function Record(domain: string, name: string, value: string): string {
    domain + Flags + name + "\t" + value
  }

  /** `cookie.split("=", 1)` unpacked into a name and a value. */
  function Pair(cookie: string): (r: Result<(string, string)>)
    ensures r.Ok? <==> '=' in cookie
    ensures r.Ok? ==> r.value.0 + "=" + r.value.1 == cookie && '=' !in r.value.0
    ensures r.Err? ==> r.error == ValueError
  {
    ContainsChar(cookie, '=');
    var parts := SplitOnce(cookie, "=");
    if |parts| == 2 then
      ContainsChar(parts[0], '=');
      Ok((parts[0], parts[1]))
    else Err(ValueError)
  }

  /** What the converter writes so far and, if it stopped early, why. */
  datatype Export = Export(text: string, failure: Option<PyError>)

  /** The line written for one cookie, or the error its unpacking raises. */
  function Entry(domain: string, cookie: string): (r: Result<string>)
    ensures r.Ok? <==> '=' in cookie
    ensures r.Err? ==> r.error == ValueError
  {
    match Pair(cookie)
    case Ok((name, value)) => Ok(Record(domain, name, value) + "\n")
    case Err(e) => Err(e)
  }

  /**
   * Writing `entry` of each cookie in order; the first error ends the
   * writing, after the lines before it.
   */
  function LinesWith(entry: string -> Result<string>, cookies: seq<string>): (r: Export)
    ensures r.failure.None? <==> forall k :: 0 <= k < |cookies| ==> entry(cookies[k]).Ok?
    ensures r.failure.Some? ==> exists k :: 0 <= k < |cookies| && entry(cookies[k]) == Err(r.failure.value)
    decreases |cookies|
  {
    if |cookies| == 0 then Export("", None)
    else
      match entry(cookies[0])
      case Err(e) => Export("", Some(e))
      case Ok(line) =>
        var rest := LinesWith(entry, cookies[1..]);
        assert forall k :: 1 <= k < |cookies| ==> cookies[k] == cookies[1..][k - 1];
        Export(line + rest.text, rest.failure)
  }

  /** The converter's loop over the cookies, for one domain. */
  function Lines(domain: string, cookies: seq<string>): (r: Export)
    ensures r.failure.None? <==> forall k :: 0 <= k < |cookies| ==> '=' in cookies[k]
    ensures r.failure.Some? ==> r.failure.value == ValueError
  {
    var entry := (c: string) => Entry(domain, c);
    var r := LinesWith(entry, cookies);
    assert forall k :: 0 <= k < |cookies| ==> (entry(cookies[k]).Ok? <==> '=' in cookies[k]);
    r
  }

  /** The cookies of a raw string: stripped, then split at every `"; "`. */
  function CookiesOf(raw: string): (cookies: seq<string>)
    ensures |cookies| >= 1
    ensures Join(cookies, PairSeparator) == Strip(raw)
    ensures forall k :: 0 <= k < |cookies| ==> !Contains(cookies[k], PairSeparator)
  {
    SplitPieces(Strip(raw), PairSeparator);
    Split(Strip(raw), PairSeparator)
  }

  /** The whole file the converter leaves behind. */
  function Convert(raw: string, domain: string): (r: Export)
    ensures StartsWith(r.text, Header)
    ensures r.failure.None? <==> forall k :: 0 <= k < |CookiesOf(raw)| ==> '=' in CookiesOf(raw)[k]
  {
    var body := Lines(domain, CookiesOf(raw));
    Export(Header + body.text, body.failure)
  }

  /** Writing two runs of cookies, the first without errors, writes one after the other. */
  lemma {:induction false} LinesWithAppend(entry: string -> Result<string>, a: seq<string>, b: seq<string>)
    requires forall k :: 0 <= k < |a| ==> entry(a[k]).Ok?
    ensures LinesWith(entry, a + b).text == LinesWith(entry, a).text + LinesWith(entry, b).text
    ensures LinesWith(entry, a + b).failure == LinesWith(entry, b).failure
    decreases |a|
  {
    if |a| == 0 {
      assert a + b == b;
    } else {
      assert (a + b)[0] == a[0];
      assert (a + b)[1..] == a[1..] + b;
      LinesWithAppend(entry, a[1..], b);
    }
  }

  /** Converting two runs of cookies, the first all well formed, writes one after the other. */
  lemma LinesAppend(domain: string, a: seq<string>, b: seq<string>)
    requires forall k :: 0 <= k < |a| ==> '=' in a[k]
    ensures Lines(domain, a + b).text == Lines(domain, a).text + Lines(domain, b).text
    ensures Lines(domain, a + b).failure == Lines(domain, b).failure
  {
    LinesWithAppend((c: string) => Entry(domain, c), a, b);
  }

  /** A single good cookie becomes a single record line. */
  lemma LinesOne(domain: string, cookie: string)
    requires '=' in cookie
    ensures Lines(domain, [cookie]).failure.None?
    ensures Lines(domain, [cookie]).text
         == Record(domain, Pair(cookie).value.0, Pair(cookie).value.1) + "\n"
  {
    var entry := (c: string) => Entry(domain, c);
    assert [cookie][1..] == [];
    assert LinesWith(entry, [cookie]).text == entry(cookie).value + LinesWith(entry, []).text;
  }

  /**
   * The conversion stops at the first cookie without `=`: the file holds
   * the lines of the cookies before it and nothing after.
   */
  lemma StopsAtFirstBad(domain: string, cookies: seq<string>, j: nat)
    requires j < |cookies| && '=' !in cookies[j]
    requires forall k :: 0 <= k < j ==> '=' in cookies[k]
    ensures Lines(domain, cookies).text == Lines(domain, cookies[..j]).text
    ensures Lines(domain, cookies).failure == Some(ValueError)
  {
    assert cookies == cookies[..j] + cookies[j..];
    LinesAppend(domain, cookies[..j], cookies[j..]);
    assert cookies[j..][0] == cookies[j];
  }

  /** An empty cookie string is one empty cookie, which has no `=`. */
  lemma EmptyInputFails(domain: string)
    ensures Convert("", domain) == Export(Header, Some(ValueError))
  {
    assert CookiesOf("") == [""] by {
      assert Strip("") == "" by {
        assert LStrip("") == "";
      }
      SplitNoSep("", PairSeparator);
    }
    assert Lines(domain, [""]) == Export("", Some(ValueError)) by {
      var entry := (c: string) => Entry(domain, c);
      assert entry("") == Err(ValueError);
      assert LinesWith(entry, [""]) == Export("", Some(ValueError));
    }
    assert Header + "" == Header;
  }

  /** The last three fields of a record: expiry, name and value. */
  lemma LastFields(name: string, value: string)
    requires '\t' !in name && '\t' !in value
    ensures Split("0" + "\t" + name + "\t" + value, "\t") == ["0", name, value]
  {
    var t := '\t';
    var tail := name + [t] + value;
    assert "0" + "\t" + name + "\t" + value == "0" + [t] + tail;
    SplitCharAbsent(value, t);
    SplitCutChar(name, t, value);
    SplitCutChar("0", t, tail);
  }

  /** A record without tabs in its parts splits at its tabs into the seven Netscape fields. */
  lemma RecordFields(domain: string, name: string, value: string)
    requires '\t' !in domain && '\t' !in name && '\t' !in value
    ensures Split(Record(domain, name, value), "\t") == [domain, "TRUE", "/", "FALSE", "0", name, value]
  {
    var t := '\t';
    var tail3 := "0" + "\t" + name + "\t" + value;
    var tail2 := "FALSE" + [t] + tail3;
    var tail1 := "/" + [t] + tail2;
    var tail0 := "TRUE" + [t] + tail1;
    RecordLayout(domain, name, value);
    var f3 := ["0", name, value];
    assert Split(tail3, [t]) == f3 by { LastFields(name, value); }
    assert Split(tail2, [t]) == ["FALSE"] + f3 by { SplitCutChar("FALSE", t, tail3); }
    assert Split(tail1, [t]) == ["/"] + (["FALSE"] + f3) by { SplitCutChar("/", t, tail2); }
    assert Split(tail0, [t]) == ["TRUE"] + (["/"] + (["FALSE"] + f3)) by { SplitCutChar("TRUE", t, tail1); }
    assert Split(domain + [t] + tail0, [t]) == [domain] + (["TRUE"] + (["/"] + (["FALSE"] + f3))) by {
      SplitCutChar(domain, t, tail0);
    }
    Seven(domain, "TRUE", "/", "FALSE", "0", name, value);
  }

  /** A record is the domain, a tab, and the remaining fields each followed by a tab. */
  lemma RecordLayout(domain: string, name: string, value: string)
    ensures Record(domain, name, value)
         == domain + "\t" + ("TRUE" + "\t" + ("/" + "\t" + ("FALSE" + "\t" + ("0" + "\t" + name + "\t" + value))))
  {
  }

  /** Right-nested singletons concatenate to the seven-element display. */
  lemma Seven<T>(a: T, b: T, c: T, d: T, e: T, f: T, g: T)
    ensures [a] + ([b] + ([c] + ([d] + [e, f, g]))) == [a, b, c, d, e, f, g]
  {
  }

  /**
   * Round trip: the name and value fields of the record written for a good
   * cookie, rejoined with `=`, give the cookie back.
   */
  lemma CookieRoundTrip(domain: string, cookie: string)
    requires '=' in cookie && '\t' !in domain && '\t' !in cookie
    ensures Pair(cookie).Ok?
    ensures var fields := Split(Record(domain, Pair(cookie).value.0, Pair(cookie).value.1), "\t");
            |fields| == 7 && fields[0] == domain && fields[5] + "=" + fields[6] == cookie
  {
    var (name, value) := Pair(cookie).value;
    assert cookie == name + "=" + value;
    AbsentFromParts(name, "=", value, '\t');
    RecordFields(domain, name, value);
  }
}
