/** The string operations the program applies to URLs and file names:
    Python's `startswith`, `endswith`, `in`, `strip`/`rstrip` of one
    character, ASCII `lower`, `str(n)` for page numbers, `urllib.parse.quote`
    and the path part of `urllib.parse.urlparse`. */
module Strings {

  type Url = string

  predicate StartsWith(s: string, prefix: string) {
    |prefix| <= |s| && s[..|prefix|] == prefix
  }

  predicate EndsWith(s: string, suffix: string) {
    |suffix| <= |s| && s[|s| - |suffix|..] == suffix
  }

  predicate OccursAt(s: string, sub: string, i: int) {
    0 <= i && i + |sub| <= |s| && s[i..i + |sub|] == sub
  }

  /** Python's `sub in s`. */
  predicate Contains(s: string, sub: string) {
    exists i | 0 <= i <= |s| - |sub| :: OccursAt(s, sub, i)
  }

  lemma StartsWithConcat(a: string, b: string)
    ensures StartsWith(a + b, a)
  {
    assert (a + b)[..|a|] == a;
  }

  /** A string occurs in any string it is the middle part of. */
  lemma ContainsMiddle(a: string, b: string, c: string)
    ensures Contains(a + b + c, b)
  {
    assert (a + b + c)[|a|..|a| + |b|] == b;
    assert OccursAt(a + b + c, b, |a|);
  }

  /** `s.rstrip(c)`: `s` without its trailing run of `c`. */
  function RStrip(s: string, c: char): (r: string)
    ensures |r| <= |s| && r == s[..|r|]
    ensures r == [] || r[|r| - 1] != c
    ensures forall i :: |r| <= i < |s| ==> s[i] == c
  {
    if s != [] && s[|s| - 1] == c then RStrip(s[..|s| - 1], c) else s
  }

  /** `s.lstrip(c)`: `s` without its leading run of `c`. */
  function LStrip(s: string, c: char): (r: string)
    ensures |r| <= |s| && r == s[|s| - |r|..]
    ensures r == [] || r[0] != c
    ensures forall i :: 0 <= i < |s| - |r| ==> s[i] == c
  {
    if s != [] && s[0] == c then LStrip(s[1..], c) else s
  }

  /** `s.strip(c)`: both runs removed. */
  function Strip(s: string, c: char): string {
    LStrip(RStrip(s, c), c)
  }

  lemma StripUntouched(s: string, c: char)
    requires forall i :: 0 <= i < |s| ==> s[i] != c
    ensures Strip([c] + s + [c], c) == s
  {
    var t := [c] + s + [c];
    assert t[..|t| - 1] == [c] + s;
    if s != [] {
      assert ([c] + s)[|s|] == s[|s| - 1];
      assert RStrip([c] + s, c) == [c] + s;
      assert ([c] + s)[1..] == s;
      assert RStrip(t, c) == [c] + s;
      assert LStrip(s, c) == s;
      assert LStrip([c] + s, c) == s;
    } else {
      assert RStrip(t, c) == [];
    }
  }

  /** The longest prefix of `s` holding no character of `stops`. */
  function TakeUntil(s: string, stops: set<char>): (r: string)
    ensures StartsWith(s, r)
    ensures forall i :: 0 <= i < |r| ==> r[i] !in stops
    ensures |r| < |s| ==> s[|r|] in stops
  {
    if s == [] || s[0] in stops then [] else [s[0]] + TakeUntil(s[1..], stops)
  }

  /** What follows that prefix: empty, or starting with a character of `stops`. */
  function DropUntil(s: string, stops: set<char>): string {
    s[|TakeUntil(s, stops)|..]
  }

  /** A run of characters outside `stops` passes through `TakeUntil` whole. */
  lemma {:induction false} TakeUntilConcat(a: string, b: string, stops: set<char>)
    requires forall i :: 0 <= i < |a| ==> a[i] !in stops
    ensures TakeUntil(a + b, stops) == a + TakeUntil(b, stops)
  {
    if a != [] {
      assert (a + b)[0] == a[0];
      assert (a + b)[1..] == a[1..] + b;
      TakeUntilConcat(a[1..], b, stops);
      assert [a[0]] + (a[1..] + TakeUntil(b, stops)) == a + TakeUntil(b, stops);
    } else {
      assert a + b == b;
    }
  }

  lemma TakeUntilAtStop(s: string, stops: set<char>)
    requires s != [] && s[0] in stops
    ensures TakeUntil(s, stops) == [] && DropUntil(s, stops) == s
  {
  }

  predicate IsAsciiLetter(c: char) {
    'a' <= c <= 'z' || 'A' <= c <= 'Z'
  }

  /** The characters `urllib.parse` accepts in a scheme name. */
  predicate IsSchemeChar(c: char) {
    IsAsciiLetter(c) || '0' <= c <= '9' || c == '+' || c == '-' || c == '.'
  }

  /** The URL after its `scheme:` when it has one, by the rule of
      `urllib.parse.urlsplit`: the text before the first `:` is a scheme when it
      is non-empty, starts with an ASCII letter and holds only scheme characters. */
  function AfterScheme(url: Url): Url {
    var scheme := TakeUntil(url, {':'});
    if 0 < |scheme| < |url| && IsAsciiLetter(scheme[0])
       && forall i :: 0 <= i < |scheme| ==> IsSchemeChar(scheme[i])
    then url[|scheme| + 1..]
    else url
  }

  /** The path component of `urlparse(url)`: after the scheme and, when the
      rest starts with `//`, after the network location (which ends at the first
      `/`, `?` or `#`); the path itself ends at the first `?` or `#`. */
  function PathOf(url: Url): string {
    var rest := AfterScheme(url);
    var afterNetloc := if StartsWith(rest, "//") then DropUntil(rest[2..], {'/', '?', '#'}) else rest;
    TakeUntil(afterNetloc, {'?', '#'})
  }

  /** `s.split("/")[0]`. */
  function FirstSegment(s: string): (r: string)
    ensures forall i :: 0 <= i < |r| ==> r[i] != '/'
  {
    TakeUntil(s, {'/'})
  }

  function LowerChar(c: char): char {
    if 'A' <= c <= 'Z' then (c as int + 32) as char else c
  }

  /** `s.lower()` on the ASCII letters. */
  function Lower(s: string): string {
    seq(|s|, i requires 0 <= i < |s| => LowerChar(s[i]))
  }

  lemma LowerConcat(a: string, b: string)
    ensures Lower(a + b) == Lower(a) + Lower(b)
  {
  }

  lemma LowerIdempotent(s: string)
    ensures Lower(Lower(s)) == Lower(s)
  {
  }

  function DigitChar(d: int): char
    requires 0 <= d < 10
  {
    ('0' as int + d) as char
  }

  /** `str(n)` for a natural number: its decimal digits, most significant first. */
  function NatToString(n: nat): (r: string)
    ensures 1 <= |r| && (|r| == 1 <==> n < 10)
    ensures forall i :: 0 <= i < |r| ==> '0' <= r[i] <= '9'
  {
    if n < 10 then [DigitChar(n)] else NatToString(n / 10) + [DigitChar(n % 10)]
  }

  /** Distinct numbers print differently, so distinct page numbers give
      distinct page URLs. */
  lemma {:induction false} NatToStringInjective(a: nat, b: nat)
    requires NatToString(a) == NatToString(b)
    ensures a == b
  {
    var s := NatToString(a);
    if a < 10 || b < 10 {
      assert a < 10 && b < 10;
      assert DigitChar(a) == s[0] == DigitChar(b);
    } else {
      assert DigitChar(a % 10) == s[|s| - 1] == DigitChar(b % 10);
      assert NatToString(a / 10) == s[..|s| - 1] == NatToString(b / 10);
      NatToStringInjective(a / 10, b / 10);
    }
  }

  /** The characters `urllib.parse.quote` leaves as they are (with its
      default `safe='/'`). */
  predicate QuoteSafe(c: char) {
    IsAsciiLetter(c) || '0' <= c <= '9' || c == '_' || c == '.' || c == '-' || c == '~' || c == '/'
  }

  function HexDigit(d: int): char
    requires 0 <= d < 16
  {
    if d < 10 then DigitChar(d) else ('A' as int + d - 10) as char
  }

  /** `%XX` for one byte, upper-case hex. */
  function PercentByte(b: int): string {
    ['%', HexDigit((b / 16) % 16), HexDigit(b % 16)]
  }

  /** The UTF-8 encoding of a code point, as byte values. */
  function Utf8(cp: int): seq<int> {
    if cp < 0x80 then [cp]
    else if cp < 0x800 then [0xC0 + cp / 0x40, 0x80 + cp % 0x40]
    else if cp < 0x10000 then [0xE0 + cp / 0x1000, 0x80 + (cp / 0x40) % 0x40, 0x80 + cp % 0x40]
    else [0xF0 + cp / 0x40000, 0x80 + (cp / 0x1000) % 0x40, 0x80 + (cp / 0x40) % 0x40, 0x80 + cp % 0x40]
  }

  function PercentBytes(bytes: seq<int>): string {
    if bytes == [] then [] else PercentByte(bytes[0]) + PercentBytes(bytes[1..])
  }

  function QuoteChar(c: char): string {
    if QuoteSafe(c) then [c] else PercentBytes(Utf8(c as int))
  }

  /** `urllib.parse.quote(s)`: every character outside the safe set replaced by
      the percent-escapes of its UTF-8 bytes. */
  function Quote(s: string): string {
    if s == [] then [] else QuoteChar(s[0]) + Quote(s[1..])
  }

  predicate IsQuotedChar(c: char) {
    QuoteSafe(c) || c == '%'
  }

  lemma {:induction false} PercentBytesQuoted(bytes: seq<int>)
    ensures forall i :: 0 <= i < |PercentBytes(bytes)| ==> IsQuotedChar(PercentBytes(bytes)[i])
  {
    if bytes != [] {
      PercentBytesQuoted(bytes[1..]);
      var head := PercentByte(bytes[0]);
      var tail := PercentBytes(bytes[1..]);
      forall i | 0 <= i < |head + tail| ensures IsQuotedChar((head + tail)[i]) {
        if i >= |head| {
          assert (head + tail)[i] == tail[i - |head|];
        }
      }
    }
  }

  /** A quoted string cannot hold `&`, `=`, `?` or `#`, so quoting the
      search term keeps it inside its own query parameter. */
  lemma {:induction false} QuoteIsQuoted(s: string)
    ensures forall i :: 0 <= i < |Quote(s)| ==> IsQuotedChar(Quote(s)[i])
  {
    if s != [] {
      QuoteIsQuoted(s[1..]);
      var head := QuoteChar(s[0]);
      var tail := Quote(s[1..]);
      if !QuoteSafe(s[0]) {
        PercentBytesQuoted(Utf8(s[0] as int));
      }
      forall i | 0 <= i < |head + tail| ensures IsQuotedChar((head + tail)[i]) {
        if i >= |head| {
          assert (head + tail)[i] == tail[i - |head|];
        }
      }
    }
  }

  /** A name made of safe characters is sent as it is. */
  lemma {:induction false} QuoteSafeIdentity(s: string)
    requires forall i :: 0 <= i < |s| ==> QuoteSafe(s[i])
    ensures Quote(s) == s
  {
    if s != [] {
      QuoteSafeIdentity(s[1..]);
    }
  }
}
