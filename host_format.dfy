/** Parsing of the warehouse host name: `String.prototype.split` on '.', the
    workgroup identifier (first segment) and the region captured by the
    pattern `\.([a-z0-9-]+)\.redshift`. */
module HostFormat {
  import opened Types

  const RegionMarker := ".redshift"
  const DefaultRegion := "us-east-1"

  /** Index of the first `c` in `s`, or |s| when `s` has none. */
  function FirstIndex(s: string, c: char): (k: nat)
    ensures k <= |s|
    ensures forall i :: 0 <= i < k ==> s[i] != c
    ensures k < |s| ==> s[k] == c
  {
    if s == [] then 0
    else if s[0] == c then 0
    else 1 + FirstIndex(s[1..], c)
  }

  /** The parts joined back with `sep` between neighbours. */
  function Join(parts: seq<string>, sep: char): string {
    if parts == [] then ""
    else if |parts| == 1 then parts[0]
    else parts[0] + [sep] + Join(parts[1..], sep)
  }

  /** `s.split(sep)` for a one-character separator. */
  function Split(s: string, sep: char): (parts: seq<string>)
    ensures |parts| >= 1
    ensures Join(parts, sep) == s
    ensures forall i :: 0 <= i < |parts| ==> sep !in parts[i]
    ensures parts[0] == s[..FirstIndex(s, sep)]
    ensures |parts| == 1 <==> sep !in s
  {
    if s == [] then [""]
    else
      var rest := Split(s[1..], sep);
      if s[0] == sep then
        [""] + rest
      else
        assert sep in s ==> sep in s[1..] by {
          if sep in s {
            var j :| 0 <= j < |s| && s[j] == sep;
            assert s[1..][j - 1] == sep;
          }
        }
        assert [s[0]] + s[1..][..FirstIndex(s[1..], sep)] == s[..FirstIndex(s, sep)];
        [[s[0]] + rest[0]] + rest[1..]
  }

  /** Characters of the class `[a-z0-9-]`. */
  predicate InRegionClass(c: char) {
    ('a' <= c <= 'z') || ('0' <= c <= '9') || c == '-'
  }

  /** The pattern `\.([a-z0-9-]+)\.redshift` matches `s` at index `i` with
      its group being `s[i + 1..k]` (any choice the regex engine could make). */
  ghost predicate PatternAt(s: string, i: int, k: int) {
    0 <= i && i + 1 < k && k + |RegionMarker| <= |s|
    && s[i] == '.'
    && (forall j :: i + 1 <= j < k ==> InRegionClass(s[j]))
    && s[k..k + |RegionMarker|] == RegionMarker
  }

  /** End of the run of `[a-z0-9-]` characters starting at `j`. */
  function RunEnd(s: string, j: nat): (k: nat)
    requires j <= |s|
    ensures j <= k <= |s|
    ensures forall m :: j <= m < k ==> InRegionClass(s[m])
    ensures k < |s| ==> !InRegionClass(s[k])
    decreases |s| - j
  {
    if j == |s| || !InRegionClass(s[j]) then j else RunEnd(s, j + 1)
  }

  /** What the pattern captures when the match is tried at index `i`. */
  function MatchAt(s: string, i: nat): Option<string>
    requires i < |s|
  {
    if s[i] != '.' then None
    else
      var k := RunEnd(s, i + 1);
      if i + 1 < k && k + |RegionMarker| <= |s| && s[k..k + |RegionMarker|] == RegionMarker
      then Some(s[i + 1..k])
      else None
  }

  /** The group of the leftmost match starting at or after `from`. */
  function FirstMatch(s: string, from: nat): Option<string>
    requires from <= |s|
    decreases |s| - from
  {
    if from == |s| then None
    else if MatchAt(s, from).Some? then MatchAt(s, from)
    else FirstMatch(s, from + 1)
  }

  /** The cluster/workgroup identifier: the first dot-separated segment. */
  function ClusterIdentifier(host: string): string {
    Split(host, '.')[0]
  }

  /** `host.match(/\.([a-z0-9-]+)\.redshift/)`, group 1, or "us-east-1". */
  function Region(host: string): string {
    match FirstMatch(host, 0)
    case Some(r) => r
    case None => DefaultRegion
  }

  /** No match of the pattern starts in `[from, to)`. */
  ghost predicate NoPatternBetween(s: string, from: int, to: int) {
    forall i, k :: from <= i < to ==> !PatternAt(s, i, k)
  }

  /** Trying the pattern at one index: the greedy run of class characters is
      the only group a match can have there, so `MatchAt` agrees with the
      regex semantics. */
  lemma MatchAtIsPattern(s: string, i: nat)
    requires i < |s|
    ensures MatchAt(s, i).Some? ==> PatternAt(s, i, RunEnd(s, i + 1)) && MatchAt(s, i).value == s[i + 1..RunEnd(s, i + 1)]
    ensures forall k :: PatternAt(s, i, k) ==> MatchAt(s, i) == Some(s[i + 1..k])
  {
    forall k | PatternAt(s, i, k)
      ensures MatchAt(s, i) == Some(s[i + 1..k])
    {
      assert s[k] == RegionMarker[0];
      assert !InRegionClass(s[k]);
      assert RunEnd(s, i + 1) == k;
    }
  }

  /** A leftmost match at `i` is what the scan from `from` finds. */
  lemma {:induction false} FirstMatchFindsLeftmost(s: string, from: nat, i: nat, k: nat)
    requires from <= i && PatternAt(s, i, k) && NoPatternBetween(s, from, i)
    ensures FirstMatch(s, from) == Some(s[i + 1..k])
    decreases i - from
  {
    MatchAtIsPattern(s, from);
    if i != from {
      assert !PatternAt(s, from, RunEnd(s, from + 1));
      FirstMatchFindsLeftmost(s, from + 1, i, k);
    }
  }

  /** Without a match at or after `from`, the scan finds nothing. */
  lemma {:induction false} FirstMatchFindsNothing(s: string, from: nat)
    requires from <= |s| && NoPatternBetween(s, from, |s|)
    ensures FirstMatch(s, from) == None
    decreases |s| - from
  {
    if from < |s| {
      MatchAtIsPattern(s, from);
      assert !PatternAt(s, from, RunEnd(s, from + 1));
      FirstMatchFindsNothing(s, from + 1);
    }
  }

  /** The region is the group of the leftmost match of the pattern, and
      "us-east-1" when the pattern does not match. */
  lemma RegionIsLeftmostCapture(host: string)
    ensures NoPatternBetween(host, 0, |host|) ==> Region(host) == DefaultRegion
    ensures forall i, k | PatternAt(host, i, k) && NoPatternBetween(host, 0, i) :: Region(host) == host[i + 1..k]
  {
    if NoPatternBetween(host, 0, |host|) {
      FirstMatchFindsNothing(host, 0);
    }
    forall i, k | PatternAt(host, i, k) && NoPatternBetween(host, 0, i)
      ensures Region(host) == host[i + 1..k]
    {
      FirstMatchFindsLeftmost(host, 0, i, k);
    }
  }

  /** The workgroup identifier is the text before the first dot; it holds no
      dot, and when the host has a dot it is followed by one. */
  lemma ClusterIdentifierIsFirstSegment(host: string)
    ensures ClusterIdentifier(host) == host[..FirstIndex(host, '.')]
    ensures '.' !in ClusterIdentifier(host)
    ensures '.' in host ==> host[..|ClusterIdentifier(host)| + 1] == ClusterIdentifier(host) + "."
  {
    var parts := Split(host, '.');
    assert '.' !in parts[0];
    if '.' in host {
      var k := FirstIndex(host, '.');
      assert host[..k + 1] == host[..k] + [host[k]];
    }
  }

  /** A host has at least two dot-separated parts exactly when it has a dot. */
  lemma TwoPartsIffDot(host: string)
    ensures |Split(host, '.')| >= 2 <==> '.' in host
  {
  }

  /** The host of a serverless workgroup, in the documented format. */
  const ServerlessHost := "wh1.acct." + "us-west-2" + RegionMarker + "-serverless.amazonaws.com"

  lemma ClusterOfServerlessHost()
    ensures ClusterIdentifier(ServerlessHost) == "wh1"
  {
    var host := ServerlessHost;
    assert host[0] == 'w' && host[1] == 'h' && host[2] == '1' && host[3] == '.';
    var k := FirstIndex(host, '.');
    assert k == 3;
    ClusterIdentifierIsFirstSegment(host);
    assert host[..3] == "wh1";
  }

  lemma RegionOfServerlessHost()
    ensures Region(ServerlessHost) == "us-west-2"
  {
    var prefix, region := "wh1.acct.", "us-west-2";
    var host := ServerlessHost;
    assert host == prefix + region + RegionMarker + "-serverless.amazonaws.com";
    assert host[..9] == prefix && host[9..18] == region && host[18..27] == RegionMarker;
    // "wh1.acct." has dots at 3 and 8; the run after the first ends at the
    // second, which is followed by "us-west-2" and not by "redshift"
    assert prefix[0] == 'w' && prefix[1] == 'h' && prefix[2] == '1' && prefix[3] == '.';
    assert prefix[4] == 'a' && prefix[5] == 'c' && prefix[6] == 'c' && prefix[7] == 't' && prefix[8] == '.';
    forall i | 0 <= i < 8 && i != 3 ensures host[i] != '.' {
      assert host[i] == prefix[i];
      assert i == 0 || i == 1 || i == 2 || i == 4 || i == 5 || i == 6 || i == 7;
    }
    forall j | 4 <= j < 8 ensures InRegionClass(host[j]) {
      assert host[j] == prefix[j];
      assert j == 4 || j == 5 || j == 6 || j == 7;
    }
    assert !InRegionClass(host[8]);
    assert RunEnd(host, 4) == 8;
    assert host[9] == region[0] == 'u';
    assert host[9] != RegionMarker[1];
    assert MatchAt(host, 3) == None;
    MatchAtIsPattern(host, 3);
    assert NoPatternBetween(host, 0, 8);
    // the match at 8 captures "us-west-2"
    assert region[0] == 'u' && region[1] == 's' && region[2] == '-' && region[3] == 'w' && region[4] == 'e';
    assert region[5] == 's' && region[6] == 't' && region[7] == '-' && region[8] == '2';
    forall j | 9 <= j < 18 ensures InRegionClass(host[j]) {
      assert host[j] == region[j - 9];
      var d := j - 9;
      assert d == 0 || d == 1 || d == 2 || d == 3 || d == 4 || d == 5 || d == 6 || d == 7 || d == 8;
    }
    assert PatternAt(host, 8, 18);
    RegionIsLeftmostCapture(host);
  }
}
