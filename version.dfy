/**
 * ChromeVersion's pure part: VERSION_PATTERN `(\d+)\.(\d+)\.(\d+)\.(\d+)`
 * applied with `re.match` (anchored at the start only, so anything may
 * follow), the major number as group 1, and the compatibility test. Digits
 * are the ASCII digits.
 */
module ChromeVersion {
  import opened Wrappers
  import opened Text

  /** The VersionError raised for a string the pattern does not match. */
  datatype VersionError = VersionError(message: string)

  /** The length of the run of digits that starts `s`. */
  function DigitRun(s: string): (n: nat)
    ensures n <= |s|
    ensures AllDigits(s[..n])
    ensures n < |s| ==> !IsDigit(s[n])
  {
    if s != [] && IsDigit(s[0]) then 1 + DigitRun(s[1..]) else 0
  }

  /** A run of digits that stops at a non-digit (or the end) is the whole leading run. */
  lemma {:induction false} DigitRunAt(s: string, i: nat)
    requires i <= |s| && AllDigits(s[..i]) && (i < |s| ==> !IsDigit(s[i]))
    ensures DigitRun(s) == i
  {
    if i > 0 {
      assert IsDigit(s[..i][0]);
      assert s[1..][..i - 1] == s[..i][1..];
      DigitRunAt(s[1..], i - 1);
    }
  }

  /** One more digit group and a dot in front of `g - 1` groups make `g` groups. */
  lemma DottedStep(s: string, n: nat, g: nat)
    requires 0 < n < |s| && AllDigits(s[..n]) && s[n] == '.' && g >= 2
    requires DottedGroups(s[n + 1..], g - 1)
    ensures DottedGroups(s, g) && DigitRun(s) == n
  {
    DigitRunAt(s, n);
  }

  /**
   * The pattern as the regular expression reads: four non-empty digit groups
   * separated by dots at `i`, `j` and `k`, at the start of `s`.
   */
  ghost predicate VersionShape(s: string, i: nat, j: nat, k: nat) {
    && 0 < i && i + 1 < j && j + 1 < k && k + 1 < |s|
    && s[i] == '.' && s[j] == '.' && s[k] == '.'
    && AllDigits(s[..i]) && AllDigits(s[i + 1..j]) && AllDigits(s[j + 1..k]) && IsDigit(s[k + 1])
  }

  ghost predicate MatchesVersionPattern(s: string) {
    exists i: nat, j: nat, k: nat :: VersionShape(s, i, j, k)
  }

  /** The greedy scan: `groups` digit groups separated by dots start `s`. */
  function DottedGroups(s: string, groups: nat): bool
    decreases groups
  {
    var n := DigitRun(s);
    n > 0 && (groups <= 1 || (n < |s| && s[n] == '.' && DottedGroups(s[n + 1..], groups - 1)))
  }

  /** `VERSION_PATTERN.match(s)`, giving group 1 when it matches. */
  function MatchVersion(s: string): Option<string> {
    if DottedGroups(s, 4) then Some(s[..DigitRun(s)]) else None
  }

  /** The greedy scan accepts exactly the strings the pattern matches, and group 1 is the first group. */
  lemma MatchVersionShape(s: string)
    ensures MatchVersion(s).Some? <==> MatchesVersionPattern(s)
    ensures forall i: nat, j: nat, k: nat :: VersionShape(s, i, j, k) ==> MatchVersion(s) == Some(s[..i])
  {
    if DottedGroups(s, 4) {
      var i := DigitRun(s);
      var s2 := s[i + 1..];
      var n2 := DigitRun(s2);
      var s3 := s2[n2 + 1..];
      var n3 := DigitRun(s3);
      var s4 := s3[n3 + 1..];
      var j := i + 1 + n2;
      var k := j + 1 + n3;
      assert s[i + 1..j] == s2[..n2];
      assert s[j + 1..k] == s3[..n3];
      assert s[k + 1] == s4[0];
      assert VersionShape(s, i, j, k);
    }
    forall i: nat, j: nat, k: nat | VersionShape(s, i, j, k)
      ensures MatchVersion(s) == Some(s[..i])
    {
      ShapeScans(s, i, j, k);
    }
  }

  lemma ShapeScans(s: string, i: nat, j: nat, k: nat)
    requires VersionShape(s, i, j, k)
    ensures DottedGroups(s, 4) && DigitRun(s) == i
  {
    LastGroup(s[k + 1..]);
    DottedAt(s, j + 1, k, 2);
    DottedAt(s, i + 1, j, 3);
    DottedAt(s, 0, i, 4);
    assert s[0..] == s;
  }

  lemma LastGroup(s: string)
    requires s != [] && IsDigit(s[0])
    ensures DottedGroups(s, 1)
  {
    assert DigitRun(s) > 0;
  }

  /** Digits from `a` up to a dot at `b`, then `g - 1` groups: `g` groups start at `a`. */
  lemma DottedAt(s: string, a: nat, b: nat, g: nat)
    requires a < b < |s| && AllDigits(s[a..b]) && s[b] == '.' && g >= 2
    requires DottedGroups(s[b + 1..], g - 1)
    ensures DottedGroups(s[a..], g) && DigitRun(s[a..]) == b - a
  {
    var t := s[a..];
    assert t[..b - a] == s[a..b];
    assert t[b - a + 1..] == s[b + 1..];
    DottedStep(t, b - a, g);
  }

  /** get_major_version: group 1, or the VersionError naming the input. */
  function GetMajorVersion(version: string): (r: Result<string, VersionError>)
    ensures r.Ok? <==> MatchesVersionPattern(version)
    ensures r.Ok? ==> |r.value| > 0 && AllDigits(r.value) && StartsWith(version, r.value)
    ensures r.Ok? ==> |r.value| == |version| || !IsDigit(version[|r.value|])
    ensures r.Err? ==> r.error == VersionError("Invalid version format: " + version)
  {
    MatchVersionShape(version);
    match MatchVersion(version)
    case None => Err(VersionError("Invalid version format: " + version))
    case Some(major) => Ok(major)
  }

  /** is_compatible: the two major numbers are equal; the Chrome version is parsed first. */
  function IsCompatible(chromeVersion: string, driverVersion: string): (r: Result<bool, VersionError>)
    ensures r.Ok? <==> MatchesVersionPattern(chromeVersion) && MatchesVersionPattern(driverVersion)
    ensures r.Ok? ==> (r.value <==> GetMajorVersion(chromeVersion).value == GetMajorVersion(driverVersion).value)
    ensures !MatchesVersionPattern(chromeVersion) ==> r == Err(VersionError("Invalid version format: " + chromeVersion))
    ensures MatchesVersionPattern(chromeVersion) && !MatchesVersionPattern(driverVersion) ==>
      r == Err(VersionError("Invalid version format: " + driverVersion))
  {
    match GetMajorVersion(chromeVersion)
    case Err(e) => Err(e)
    case Ok(a) =>
      match GetMajorVersion(driverVersion)
      case Err(e) => Err(e)
      case Ok(b) => Ok(a == b)
  }

  lemma IsCompatibleSymmetric(a: string, b: string)
    requires IsCompatible(a, b).Ok?
    ensures IsCompatible(b, a) == IsCompatible(a, b)
  {
  }

  lemma IsCompatibleReflexive(v: string)
    requires MatchesVersionPattern(v)
    ensures IsCompatible(v, v) == Ok(true)
  {
  }

  lemma VersionExampleRelease()
    ensures GetMajorVersion("94.0.4606.81") == Ok("94")
  {
    var v := "94.0.4606.81";
    assert v[..12] == v;
    VersionExample(v);
  }

  /** Anything may follow the fourth group. */
  lemma VersionExampleSuffix()
    ensures GetMajorVersion("94.0.4606.81-beta") == Ok("94")
  {
    var w := "94.0.4606.81-beta";
    assert w[..12] == "94.0.4606.81";
    VersionExample(w);
  }

  lemma VersionExample(v: string)
    requires |v| >= 12 && v[..12] == "94.0.4606.81"
    ensures GetMajorVersion(v) == Ok("94")
  {
    var p := "94.0.4606.81";
    assert forall m :: 0 <= m < 12 ==> v[m] == p[m] by {
      forall m | 0 <= m < 12 ensures v[m] == p[m] {
        assert v[..12][m] == v[m];
      }
    }
    assert v[..2] == "94";
    DigitsIn(v, 0, 2);
    DigitsIn(v, 3, 4);
    DigitsIn(v, 5, 9);
    assert VersionShape(v, 2, 4, 9);
    ShapeScans(v, 2, 4, 9);
    MatchVersionShape(v);
  }

  lemma DigitsIn(s: string, a: nat, b: nat)
    requires a <= b <= |s| && forall m :: a <= m < b ==> IsDigit(s[m])
    ensures AllDigits(s[a..b])
  {
    assert forall m :: 0 <= m < b - a ==> s[a..b][m] == s[a + m];
  }

  /** Three groups are not enough. */
  lemma ThreeGroupsRejected()
    ensures GetMajorVersion("94.0.4606").Err?
  {
    var v := "94.0.4606";
    assert DigitRun(v) == 2 by { DigitRunAt(v, 2); }
    var s2 := v[3..];
    assert s2 == "0.4606";
    assert DigitRun(s2) == 1 by { DigitRunAt(s2, 1); }
    var s3 := s2[2..];
    assert s3 == "4606";
    assert DigitRun(s3) == 4 by { DigitRunAt(s3, 4); }
    assert !DottedGroups(s3, 2);
    MatchVersionShape(v);
  }
}
