/**
  Magnet links: every default tracker is appended, percent-encoded, unless it is there already.
 */
module Magnet {

  const DEFAULT_TRACKERS: seq<string> := [
    "udp://tracker.opentrackr.org:1337/announce",
    "udp://open.stealth.si:80/announce",
    "udp://9.rarbg.com:2810/announce",
    "udp://p4p.arenabg.com:1337/announce",
    "udp://tracker.torrent.eu.org:451/announce",
    "udp://tracker.tiny-vps.com:6969/announce",
    "udp://tracker.moeking.me:6969/announce",
    "https://opentracker.i2p.rocks/announce"
  ]

  // str::contains
  predicate Contains(s: string, part: string) {
    exists i :: 0 <= i <= |s| && OccursAt(s, part, i)
  }

  predicate OccursAt(s: string, part: string, i: nat)
    requires i <= |s|
  {
    part <= s[i..]
  }

  // Unreserved characters of section 2.3 of RFC 3986 stand for themselves.
  predicate Unreserved(c: char) {
    'a' <= c <= 'z' || 'A' <= c <= 'Z' || '0' <= c <= '9' || c == '-' || c == '_' || c == '.' || c == '~'
  }

  function HexDigit(n: nat): char
    requires n < 16
  {
    "0123456789ABCDEF"[n]
  }

  function EncodeChar(c: char): string {
    if Unreserved(c) then [c] else ['%', HexDigit(c as int / 16 % 16), HexDigit(c as int % 16)]
  }

  // urlencoding::encode of an ASCII string, as all the trackers are.
  function Encode(s: string): string {
    if s == "" then "" else EncodeChar(s[0]) + Encode(s[1..])
  }

  function HexValue(c: char): int {
    if '0' <= c <= '9' then c as int - '0' as int
    else if 'A' <= c <= 'F' then c as int - 'A' as int + 10
    else 0
  }

  // Percent-decoding (section 2.1 of RFC 3986).
  function Decode(s: string): seq<int>
    decreases |s|
  {
    if s == "" then []
    else if s[0] == '%' && |s| >= 3 then [16 * HexValue(s[1]) + HexValue(s[2])] + Decode(s[3..])
    else [s[0] as int] + Decode(s[1..])
  }

  predicate Ascii(s: string) {
    forall c :: c in s ==> c as int < 128
  }

  // Codes of the characters.
  function Codes(s: string): seq<int> {
    seq(|s|, i requires 0 <= i < |s| => s[i] as int)
  }

  // Only unreserved characters and escapes remain, and decoding gives the text back.
  lemma {:induction false} EncodeDecodes(s: string)
    requires Ascii(s)
    ensures Decode(Encode(s)) == Codes(s)
    ensures forall c :: c in Encode(s) ==> Unreserved(c) || c == '%'
  {
    if s != "" {
      assert s[0] in s && forall c :: c in s[1..] ==> c in s;
      EncodeDecodes(s[1..]);
      assert Codes(s) == [s[0] as int] + Codes(s[1..]);
      FirstDecodes(s[0], Encode(s[1..]));
    }
  }

  lemma FirstDecodes(c: char, rest: string)
    requires c as int < 128
    ensures Decode(EncodeChar(c) + rest) == [c as int] + Decode(rest)
    ensures forall d :: d in EncodeChar(c) ==> Unreserved(d) || d == '%'
  {
    if Unreserved(c) {
      assert ([c] + rest)[1..] == rest;
    } else {
      var a, b := EscapeDigits(c as int);
      EscapeDecodes(a, b, rest);
    }
  }

  lemma EscapeDigits(n: nat) returns (a: char, b: char)
    requires n < 128
    ensures a == HexDigit(n / 16 % 16) && b == HexDigit(n % 16) && 16 * HexValue(a) + HexValue(b) == n
    ensures Unreserved(a) && Unreserved(b)
  {
    var high, low := n / 16, n % 16;
    assert high % 16 == high && 16 * high + low == n;
    a, b := HexDigit(high), HexDigit(low);
    HexDigits(high);
    HexDigits(low);
  }

  lemma EscapeDecodes(a: char, b: char, rest: string)
    ensures Decode(['%', a, b] + rest) == [16 * HexValue(a) + HexValue(b)] + Decode(rest)
  {
    var s := ['%', a, b] + rest;
    assert s[3..] == rest && s[0] == '%' && s[1] == a && s[2] == b;
  }

  lemma HexDigits(n: nat)
    requires n < 16
    ensures HexValue(HexDigit(n)) == n && Unreserved(HexDigit(n))
  {
  }

  function WithTracker(url: string, tracker: string): string {
    if Contains(url, Encode(tracker)) then url else url + "&tr=" + Encode(tracker)
  }

  function WithTrackers(url: string, trackers: seq<string>): string {
    if trackers == [] then url
    else WithTracker(WithTrackers(url, trackers[..|trackers| - 1]), trackers[|trackers| - 1])
  }

  function Enriched(url: string): string {
    if "magnet:?" <= url then WithTrackers(url, DEFAULT_TRACKERS) else url
  }

  method EnrichMagnetLink(url: string) returns (r: string)
    ensures r == Enriched(url)
  {
    if !("magnet:?" <= url) { return url; }
    r := AppendTrackers(url, DEFAULT_TRACKERS);
  }

  method AppendTrackers(url: string, trackers: seq<string>) returns (r: string)
    ensures r == WithTrackers(url, trackers)
  {
    r := url;
    assert trackers[..0] == [];
    for i := 0 to |trackers|
      invariant r == WithTrackers(url, trackers[..i])
    {
      var encoded := Encode(trackers[i]);
      assert trackers[..i + 1][..i] == trackers[..i];
      if !Contains(r, encoded) { r := r + "&tr=" + encoded; }
    }
    assert trackers[..|trackers|] == trackers;
  }

  lemma ContainsPrefix(s: string, longer: string, part: string)
    requires s <= longer && Contains(s, part)
    ensures Contains(longer, part)
  {
    var i :| 0 <= i <= |s| && OccursAt(s, part, i);
    assert longer[i..][..|part|] == s[i..][..|part|] == part;
    assert OccursAt(longer, part, i);
  }

  lemma AddedIsContained(url: string, tracker: string)
    ensures url <= WithTracker(url, tracker) && Contains(WithTracker(url, tracker), Encode(tracker))
  {
    if !Contains(url, Encode(tracker)) {
      var r, i := url + "&tr=" + Encode(tracker), |url| + 4;
      assert r[i..] == Encode(tracker);
      assert OccursAt(r, Encode(tracker), i);
    }
  }

  // The link stays a prefix and every tracker of the list is contained afterwards.
  lemma {:induction false} TrackersContained(url: string, trackers: seq<string>)
    ensures url <= WithTrackers(url, trackers)
    ensures forall t :: t in trackers ==> Contains(WithTrackers(url, trackers), Encode(t))
  {
    if trackers != [] {
      var n := |trackers| - 1;
      var before := WithTrackers(url, trackers[..n]);
      TrackersContained(url, trackers[..n]);
      AddedIsContained(before, trackers[n]);
      forall t | t in trackers ensures Contains(WithTracker(before, trackers[n]), Encode(t)) {
        if t in trackers[..n] {
          ContainsPrefix(before, WithTracker(before, trackers[n]), Encode(t));
        } else {
          assert t == trackers[n];
        }
      }
    }
  }

  // The query parameters of some trackers, in order.
  function Parameters(trackers: seq<string>): string {
    if trackers == [] then "" else Parameters(trackers[..|trackers| - 1]) + "&tr=" + Encode(trackers[|trackers| - 1])
  }

  lemma OneMoreParameter(url: string, added: seq<string>, last: string)
    ensures url + Parameters(added + [last]) == url + Parameters(added) + "&tr=" + Encode(last)
  {
    assert (added + [last])[..|added|] == added;
    var a, b, c := Parameters(added), "&tr=", Encode(last);
    assert Parameters(added + [last]) == a + b + c;
    assert url + (a + b + c) == url + a + b + c;
  }

  // What is appended are the parameters of trackers of the list that the link did not contain.
  lemma {:induction false} AppendedAreMissing(url: string, trackers: seq<string>) returns (added: seq<string>)
    ensures WithTrackers(url, trackers) == url + Parameters(added)
    ensures forall t :: t in added ==> t in trackers && !Contains(url, Encode(t))
  {
    if trackers == [] {
      added := [];
    } else {
      var n := |trackers| - 1;
      added := AppendedAreMissing(url, trackers[..n]);
      var before, last := WithTrackers(url, trackers[..n]), trackers[n];
      if !Contains(before, Encode(last)) {
        TrackersContained(url, trackers[..n]);
        if Contains(url, Encode(last)) { ContainsPrefix(url, before, Encode(last)); }
        OneMoreParameter(url, added, last);
        added := added + [last];
      }
    }
  }

  // Nothing is appended exactly when every tracker is contained already.
  lemma {:induction false} NothingAdded(url: string, trackers: seq<string>)
    ensures WithTrackers(url, trackers) == url <==> forall t :: t in trackers ==> Contains(url, Encode(t))
  {
    TrackersContained(url, trackers);
    if forall t :: t in trackers ==> Contains(url, Encode(t)) {
      if trackers != [] {
        var n := |trackers| - 1;
        assert forall t :: t in trackers[..n] ==> t in trackers;
        NothingAdded(url, trackers[..n]);
        assert trackers[n] in trackers;
      }
    }
  }

  // A magnet link is enriched once and for all; other links are left alone.
  lemma EnrichOnce(url: string)
    ensures url <= Enriched(url) && Enriched(Enriched(url)) == Enriched(url)
    ensures !("magnet:?" <= url) ==> Enriched(url) == url
    ensures "magnet:?" <= url ==> forall t :: t in DEFAULT_TRACKERS ==> Contains(Enriched(url), Encode(t))
  {
    if "magnet:?" <= url {
      TrackersContained(url, DEFAULT_TRACKERS);
      NothingAdded(Enriched(url), DEFAULT_TRACKERS);
      assert "magnet:?" <= Enriched(url);
    }
  }
}
