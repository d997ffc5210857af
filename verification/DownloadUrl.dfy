/** Download URLs: a bundle path and a file name, percent-encoded, and back again. */
module DownloadUrl {
  import opened Wrappers

  // ---- UTF-8 (section 3 of RFC 3629) -------------------------------------------

  function EncodeChar(c: char): (r: Bytes)
    ensures 1 <= |r| <= 4
  {
    var n := c as int;
    if n < 0x80 then [n as Byte]
    else if n < 0x800 then [(0xC0 + n / 64) as Byte, (0x80 + n % 64) as Byte]
    else if n < 0x10000 then
      [(0xE0 + n / 4096) as Byte, (0x80 + n / 64 % 64) as Byte, (0x80 + n % 64) as Byte]
    else
      [(0xF0 + n / 262144) as Byte, (0x80 + n / 4096 % 64) as Byte, (0x80 + n / 64 % 64) as Byte,
       (0x80 + n % 64) as Byte]
  }

  function Encode(s: string): Bytes {
    if s == "" then [] else EncodeChar(s[0]) + Encode(s[1..])
  }

  /** The low six bits of a continuation byte. */
  function Continued(b: Byte): Option<int> {
    if 0x80 <= b < 0xC0 then Some(b as int - 0x80) else None
  }

  function Scalar(n: int, least: int): Option<char> {
    if least <= n < 0x110000 && !(0xD800 <= n < 0xE000) && n >= 0 then Some(n as char) else None
  }

  /** The first character and the number of bytes it takes; `None` where the bytes are not UTF-8. */
  function DecodeFirst(b: Bytes): (r: Option<(char, nat)>)
    requires b != []
    ensures r.Some? ==> 1 <= r.value.1 <= |b|
  {
    var lead := b[0] as int;
    var c1 := if |b| > 1 then Continued(b[1]) else None;
    var c2 := if |b| > 2 then Continued(b[2]) else None;
    var c3 := if |b| > 3 then Continued(b[3]) else None;
    if lead < 0x80 then Some((lead as char, 1))
    else if 0xC0 <= lead < 0xE0 && c1.Some? then
      Sized(Scalar((lead - 0xC0) * 64 + c1.value, 0x80), 2)
    else if 0xE0 <= lead < 0xF0 && c1.Some? && c2.Some? then
      Sized(Scalar((lead - 0xE0) * 4096 + c1.value * 64 + c2.value, 0x800), 3)
    else if 0xF0 <= lead < 0xF8 && c1.Some? && c2.Some? && c3.Some? then
      Sized(Scalar((lead - 0xF0) * 262144 + c1.value * 4096 + c2.value * 64 + c3.value, 0x10000), 4)
    else None
  }

  function Sized(c: Option<char>, size: nat): Option<(char, nat)> {
    if c.Some? then Some((c.value, size)) else None
  }

  function Decode(b: Bytes): Option<string> {
    if b == [] then Some("")
    else
      var first := DecodeFirst(b);
      if first.None? then None
      else
        var rest := Decode(b[first.value.1..]);
        if rest.None? then None else Some([first.value.0] + rest.value)
  }

  lemma ThreeDigits(n: int)
    requires 0x800 <= n < 0x10000
    ensures n == n / 4096 * 4096 + n / 64 % 64 * 64 + n % 64
  {
    assert n / 4096 == n / 64 / 64;
  }

  lemma FourDigits(n: int)
    requires 0x10000 <= n < 0x110000
    ensures n == n / 262144 * 262144 + n / 4096 % 64 * 4096 + n / 64 % 64 * 64 + n % 64
  {
    assert n / 4096 == n / 64 / 64;
    assert n / 262144 == n / 4096 / 64;
  }

  lemma FirstCharBack(c: char, rest: Bytes)
    ensures DecodeFirst(EncodeChar(c) + rest) == Some((c, |EncodeChar(c)|))
  {
    var n := c as int;
    var b := EncodeChar(c) + rest;
    if n < 0x80 {
    } else if n < 0x800 {
      assert Continued(b[1]) == Some(n % 64);
    } else if n < 0x10000 {
      assert Continued(b[1]) == Some(n / 64 % 64) && Continued(b[2]) == Some(n % 64);
      ThreeDigits(n);
    } else {
      assert Continued(b[1]) == Some(n / 4096 % 64) && Continued(b[2]) == Some(n / 64 % 64);
      assert Continued(b[3]) == Some(n % 64);
      FourDigits(n);
    }
  }

  lemma {:induction false} DecodeEncode(s: string)
    ensures Decode(Encode(s)) == Some(s)
  {
    if s != "" {
      var rest := Encode(s[1..]);
      var all := EncodeChar(s[0]) + rest;
      FirstCharBack(s[0], rest);
      DecodeEncode(s[1..]);
      assert Encode(s) == all != [] && all[|EncodeChar(s[0])|..] == rest;
      assert s == [s[0]] + s[1..];
    }
  }

  // ---- Percent-encoding (sections 2.1 and 2.3 of RFC 3986) ---------------------

  predicate Unreserved(b: Byte) {
    var c := b as char;
    'A' <= c <= 'Z' || 'a' <= c <= 'z' || '0' <= c <= '9' || c == '-' || c == '.' || c == '_' || c == '~'
  }

  function HexDigit(n: int): char
    requires 0 <= n < 16
  {
    if n < 10 then (n + '0' as int) as char else (n - 10 + 'A' as int) as char
  }

  /** Both cases are understood. */
  function HexValue(c: char): Option<int> {
    if '0' <= c <= '9' then Some(c as int - '0' as int)
    else if 'A' <= c <= 'F' then Some(c as int - 'A' as int + 10)
    else if 'a' <= c <= 'f' then Some(c as int - 'a' as int + 10)
    else None
  }

  function QuoteByte(b: Byte): string {
    if Unreserved(b) then [b as char] else ['%', HexDigit(b as int / 16), HexDigit(b as int % 16)]
  }

  function QuoteBytes(b: Bytes): string {
    if b == [] then "" else QuoteByte(b[0]) + QuoteBytes(b[1..])
  }

  function Quote(s: string): string {
    QuoteBytes(Encode(s))
  }

  predicate IsEscape(s: string) {
    |s| >= 3 && s[0] == '%' && HexValue(s[1]).Some? && HexValue(s[2]).Some?
  }

  /** A percent sign without two hex digits stands for itself. */
  function UnquoteToBytes(s: string): Bytes {
    if s == "" then []
    else if IsEscape(s) then
      [(HexValue(s[1]).value * 16 + HexValue(s[2]).value) as Byte] + UnquoteToBytes(s[3..])
    else EncodeChar(s[0]) + UnquoteToBytes(s[1..])
  }

  /** `None` stands for text in which undecodable bytes were replaced. */
  function Unquote(s: string): Option<string> {
    Decode(UnquoteToBytes(s))
  }

  lemma HexBack(n: int)
    requires 0 <= n < 16
    ensures HexValue(HexDigit(n)) == Some(n)
  {
  }

  lemma UnquoteFirst(b: Byte, rest: string)
    ensures UnquoteToBytes(QuoteByte(b) + rest) == [b] + UnquoteToBytes(rest)
  {
    var s := QuoteByte(b) + rest;
    if Unreserved(b) {
      assert s[1..] == rest && !IsEscape(s);
    } else {
      HexBack(b as int / 16);
      HexBack(b as int % 16);
      assert s[3..] == rest;
    }
  }

  lemma {:induction false} UnquoteQuoted(b: Bytes)
    ensures UnquoteToBytes(QuoteBytes(b)) == b
  {
    if b != [] {
      UnquoteFirst(b[0], QuoteBytes(b[1..]));
      UnquoteQuoted(b[1..]);
    }
  }

  /** Quoted text holds neither of the characters that the parser splits at. */
  lemma {:induction false} QuotedHasNoSeparator(b: Bytes)
    ensures '/' !in QuoteBytes(b) && '?' !in QuoteBytes(b)
  {
    if b != [] {
      QuotedHasNoSeparator(b[1..]);
      assert '/' !in QuoteByte(b[0]) && '?' !in QuoteByte(b[0]);
    }
  }

  predicate PlainChar(c: char) {
    'A' <= c <= 'Z' || 'a' <= c <= 'z' || '0' <= c <= '9' || c in "-._~"
  }

  predicate UpperHex(c: char) {
    '0' <= c <= '9' || 'A' <= c <= 'F'
  }

  /** Letters, digits and four marks, and percent signs with two upper-case hex digits behind them. */
  predicate WellQuoted(s: string) {
    forall i :: 0 <= i < |s| ==> PlainChar(s[i]) || EscapeAt(s, i)
  }

  predicate EscapeAt(s: string, i: nat)
    requires i < |s|
  {
    s[i] == '%' && i + 2 < |s| && UpperHex(s[i + 1]) && UpperHex(s[i + 2])
  }

  lemma ByteIsWellQuoted(b: Byte)
    ensures WellQuoted(QuoteByte(b))
  {
    if !Unreserved(b) {
      var s := QuoteByte(b);
      assert UpperHex(s[1]) && UpperHex(s[2]);
      assert EscapeAt(s, 0) && PlainChar(s[1]) && PlainChar(s[2]);
    }
  }

  lemma {:induction false} QuotedIsWellQuoted(b: Bytes)
    ensures WellQuoted(QuoteBytes(b))
  {
    if b != [] {
      QuotedIsWellQuoted(b[1..]);
      var first, rest, all := QuoteByte(b[0]), QuoteBytes(b[1..]), QuoteBytes(b);
      ByteIsWellQuoted(b[0]);
      forall i | 0 <= i < |all|
        ensures PlainChar(all[i]) || EscapeAt(all, i)
      {
        if i < |first| {
          assert PlainChar(first[i]) || EscapeAt(first, i);
        } else {
          assert PlainChar(rest[i - |first|]) || EscapeAt(rest, i - |first|);
        }
      }
    }
  }

  /** Text of these letters, digits and marks stays as it is. */
  lemma {:induction false} PlainTextStays(s: string)
    requires forall c <- s :: PlainChar(c)
    ensures Quote(s) == s
  {
    if s != "" {
      assert s == [s[0]] + s[1..] && PlainChar(s[0]);
      PlainTextStays(s[1..]);
      var rest := Encode(s[1..]);
      assert Encode(s)[0] == s[0] as int as Byte && Encode(s)[1..] == rest;
    }
  }

  // ---- The URL and its parser ------------------------------------------------

  const DOWNLOAD := "/download/"

  function StripSlashes(url: string): string {
    if url != "" && url[|url| - 1] == '/' then StripSlashes(url[..|url| - 1]) else url
  }

  /** The path part of the URL, below a base without a path of its own. */
  function DownloadPath(bundlePath: string, name: string): string {
    DOWNLOAD + (Quote(bundlePath) + "/" + Quote(name))
  }

  function BuildDownloadUrl(publicBaseUrl: string, bundlePath: string, name: string): string {
    StripSlashes(publicBaseUrl) + DownloadPath(bundlePath, name)
  }

  function BeforeQuery(raw: string): string {
    if raw == "" || raw[0] == '?' then "" else [raw[0]] + BeforeQuery(raw[1..])
  }

  /** Where the last slash is. */
  function LastSlash(s: string): (r: Option<nat>)
    ensures r.Some? ==> r.value < |s| && s[r.value] == '/' && '/' !in s[r.value + 1..]
    ensures r.None? <==> '/' !in s
  {
    if s == "" then None
    else if s[|s| - 1] == '/' then Some(|s| - 1)
    else
      var r := LastSlash(s[..|s| - 1]);
      assert s == s[..|s| - 1] + [s[|s| - 1]];
      assert r.Some? ==> s[r.value + 1..] == s[..|s| - 1][r.value + 1..] + [s[|s| - 1]];
      r
  }

  /** `None` is the "not found" answer. */
  function SplitRawPath(raw: string): Option<(Option<string>, Option<string>)> {
    var path := BeforeQuery(raw);
    if !(DOWNLOAD <= path) then None
    else
      var remainder := path[|DOWNLOAD|..];
      var at := LastSlash(remainder);
      if at.None? then None
      else Some((Unquote(remainder[..at.value]), Unquote(remainder[at.value + 1..])))
  }

  lemma {:induction false} NoQuery(raw: string)
    requires '?' !in raw
    ensures BeforeQuery(raw) == raw
  {
    if raw != "" {
      assert raw == [raw[0]] + raw[1..];
      NoQuery(raw[1..]);
    }
  }

  lemma {:induction false} LastSlashOf(front: string, back: string)
    requires '/' !in back
    ensures LastSlash(front + "/" + back) == Some(|front|)
  {
    var s := front + "/" + back;
    if back != "" {
      var n := |back| - 1;
      assert s[|s| - 1] == back[n];
      assert s[..|s| - 1] == front + "/" + back[..n];
      LastSlashOf(front, back[..n]);
    }
  }

  lemma UnquoteGivesBack(s: string)
    ensures Unquote(Quote(s)) == Some(s)
  {
    UnquoteQuoted(Encode(s));
    DecodeEncode(s);
  }

  lemma SplitQuoted(path: string, file: string)
    requires '/' !in path && '?' !in path && '/' !in file && '?' !in file
    ensures SplitRawPath(DOWNLOAD + (path + "/" + file)) == Some((Unquote(path), Unquote(file)))
  {
    var remainder := path + "/" + file;
    var raw := DOWNLOAD + remainder;
    assert '?' !in DOWNLOAD && '?' !in "/";
    NoQuery(raw);
    LastSlashOf(path, file);
    assert raw[|DOWNLOAD|..] == remainder;
    assert remainder[..|path|] == path && remainder[|path| + 1..] == file;
  }

  /** For all paths and names, whatever characters are in them, and whatever query follows. */
  lemma SplitGivesBack(bundlePath: string, name: string, query: string)
    ensures SplitRawPath(DownloadPath(bundlePath, name)) == Some((Some(bundlePath), Some(name)))
    ensures SplitRawPath(DownloadPath(bundlePath, name) + "?" + query) == Some((Some(bundlePath), Some(name)))
  {
    QuotedHasNoSeparator(Encode(bundlePath));
    QuotedHasNoSeparator(Encode(name));
    SplitQuoted(Quote(bundlePath), Quote(name));
    UnquoteGivesBack(bundlePath);
    UnquoteGivesBack(name);
    assert '?' !in DOWNLOAD && '?' !in "/" && '?' !in DownloadPath(bundlePath, name);
    NoQuery(DownloadPath(bundlePath, name));
    QueryIsCut(DownloadPath(bundlePath, name), query);
  }

  lemma {:induction false} QueryIsCut(path: string, query: string)
    requires '?' !in path
    ensures BeforeQuery(path + "?" + query) == path
  {
    if path == "" {
      assert path + "?" + query == "?" + query;
    } else {
      assert path == [path[0]] + path[1..] && (path + "?" + query)[1..] == path[1..] + "?" + query;
      QueryIsCut(path[1..], query);
    }
  }

  /** What has no query is turned down exactly if it does not begin as a download, or has no slash after that. */
  lemma TurnedDownIff(raw: string)
    requires '?' !in raw
    ensures SplitRawPath(raw).None? <==> !("/download/" <= raw) || '/' !in raw[10..]
  {
    NoQuery(raw);
  }

  /** The URL is the base without slashes at its end, and then the two quoted texts behind `/download/`. */
  lemma UrlShape(publicBaseUrl: string, bundlePath: string, name: string) returns (base: string, slashes: nat)
    ensures publicBaseUrl == base + seq(slashes, _ => '/') && (base == "" || base[|base| - 1] != '/')
    ensures BuildDownloadUrl(publicBaseUrl, bundlePath, name) ==
      base + "/download/" + Quote(bundlePath) + "/" + Quote(name)
  {
    base, slashes := Stripped(publicBaseUrl);
    Regrouped(base, "/download/", Quote(bundlePath), "/", Quote(name));
  }

  lemma Regrouped(a: string, b: string, c: string, d: string, e: string)
    ensures a + b + c + d + e == a + (b + (c + d + e)) == a + (b + (c + (d + e)))
  {
  }

  lemma {:induction false} Stripped(url: string) returns (base: string, slashes: nat)
    ensures url == base + seq(slashes, _ => '/') && (base == "" || base[|base| - 1] != '/')
    ensures base == StripSlashes(url)
  {
    if url != "" && url[|url| - 1] == '/' {
      base, slashes := Stripped(url[..|url| - 1]);
      slashes := slashes + 1;
      assert url == url[..|url| - 1] + ['/'];
      assert seq(slashes, _ => '/') == seq(slashes - 1, _ => '/') + ['/'];
    } else {
      base, slashes := url, 0;
    }
  }

  /** Different files have different URLs. */
  lemma UrlsAreDistinct(publicBaseUrl: string, path: string, name: string, otherPath: string, otherName: string)
    requires BuildDownloadUrl(publicBaseUrl, path, name) == BuildDownloadUrl(publicBaseUrl, otherPath, otherName)
    ensures path == otherPath && name == otherName
  {
    var base := StripSlashes(publicBaseUrl);
    assert BuildDownloadUrl(publicBaseUrl, path, name)[|base|..] == DownloadPath(path, name);
    assert BuildDownloadUrl(publicBaseUrl, otherPath, otherName)[|base|..] == DownloadPath(otherPath, otherName);
    SplitGivesBack(path, name, "");
    SplitGivesBack(otherPath, otherName, "");
  }
}
