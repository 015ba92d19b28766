/**
 * `getLookAndFeelDoctypeByVersion(version)`: the DOCTYPE line of a
 * look-and-feel descriptor for a two-part theme version such as "7.0". The
 * version gains a ".0" patch component; the public identifier carries it
 * dotted ("7.0.0") and the DTD file name carries it with underscores
 * ("7_0_0").
 */
module Doctype {
  import opened Wrappers

  const Prefix := "<!DOCTYPE look-and-feel PUBLIC \"-//Liferay//DTD Look and Feel "
  const Middle := "//EN\" \"http://www.liferay.com/dtd/liferay-look-and-feel_"
  const Suffix := ".dtd\">"
  const Patch := ".0"

  /** The length of the template without the two copies of the version. */
  const FixedLength := |Prefix| + |Patch| + |Middle| + |Patch| + |Suffix|

  /** Every '.' replaced by '_', every other character kept. */
  function DotsToUnderscores(s: string): (r: string)
    ensures |r| == |s|
    ensures forall i :: 0 <= i < |s| ==> r[i] == if s[i] == '.' then '_' else s[i]
    ensures '.' !in r
  {
    if s == [] then []
    else [if s[0] == '.' then '_' else s[0]] + DotsToUnderscores(s[1..])
  }

  function GetLookAndFeelDoctypeByVersion(version: string): (r: string)
    ensures |r| == FixedLength + 2 * |version|
    ensures r[..|Prefix|] == Prefix
    ensures r[|Prefix|..|Prefix| + |version| + |Patch|] == version + Patch
    ensures r[|Prefix| + |version| + |Patch|..][..|Middle|] == Middle
    ensures r[|r| - |Suffix| - |version| - |Patch|..|r| - |Suffix|] == DotsToUnderscores(version + Patch)
    ensures r[|r| - |Suffix|..] == Suffix
  {
    var full := version + Patch;
    PartsOfFive(Prefix, full, Middle, DotsToUnderscores(full), Suffix);
    Prefix + full + Middle + DotsToUnderscores(full) + Suffix
  }

  /** Where each of five concatenated pieces sits in the whole. */
  lemma PartsOfFive<T>(a: seq<T>, b: seq<T>, c: seq<T>, d: seq<T>, e: seq<T>)
    ensures var r := a + b + c + d + e;
      && r[..|a|] == a
      && r[|a|..|a| + |b|] == b
      && r[|a| + |b|..][..|c|] == c
      && r[|r| - |e| - |d|..|r| - |e|] == d
      && r[|r| - |e|..] == e
  {
    var r := a + b + c + d + e;
    assert r == a + (b + (c + (d + e)));
    assert r[|a| + |b|..] == c + d + e;
  }

  /**
   * Reads the two-part version back out of a DOCTYPE line: its length fixes
   * the version's length, and the public identifier holds it after the
   * fixed prefix.
   */
  function VersionOf(doctype: string): (r: Option<string>)
    ensures r.Some? ==> |doctype| == FixedLength + 2 * |r.value|
  {
    if |doctype| < FixedLength || (|doctype| - FixedLength) % 2 != 0 then None
    else if doctype[..|Prefix|] != Prefix then None
    else Some(doctype[|Prefix|..|Prefix| + (|doctype| - FixedLength) / 2])
  }

  /**
   * Halving an even length, stated apart so that the round trip below does
   * not reason about division among the template's string constants.
   */
  lemma HalfOfDouble(n: nat)
    ensures (2 * n) % 2 == 0 && (2 * n) / 2 == n
  {
  }

  /** The DOCTYPE line determines the version it was built from. */
  lemma VersionRoundTrip(version: string)
    ensures VersionOf(GetLookAndFeelDoctypeByVersion(version)) == Some(version)
  {
    var r := GetLookAndFeelDoctypeByVersion(version);
    HalfOfDouble(|version|);
    assert |r| - FixedLength == 2 * |version|;
    assert r[|Prefix|..|Prefix| + |version|] == r[|Prefix|..|Prefix| + |version| + |Patch|][..|version|];
  }

  /** Two versions give the same DOCTYPE line only if they are the same version. */
  lemma DoctypeInjective(v1: string, v2: string)
    requires GetLookAndFeelDoctypeByVersion(v1) == GetLookAndFeelDoctypeByVersion(v2)
    ensures v1 == v2
  {
    VersionRoundTrip(v1);
    VersionRoundTrip(v2);
  }

  /** The DOCTYPE line for theme version "1.0". */
  lemma DoctypeOneZero()
    ensures GetLookAndFeelDoctypeByVersion("1.0") ==
      "<!DOCTYPE look-and-feel PUBLIC \"-//Liferay//DTD Look and Feel " + "1.0.0" +
      "//EN\" \"http://www.liferay.com/dtd/liferay-look-and-feel_" + "1_0_0" + ".dtd\">"
  {
    assert "1.0" + Patch == "1.0.0";
    assert DotsToUnderscores("1.0.0") == "1_0_0";
  }

  /** The DOCTYPE line for theme version "7.0". */
  lemma DoctypeSevenZero()
    ensures GetLookAndFeelDoctypeByVersion("7.0") ==
      "<!DOCTYPE look-and-feel PUBLIC \"-//Liferay//DTD Look and Feel " + "7.0.0" +
      "//EN\" \"http://www.liferay.com/dtd/liferay-look-and-feel_" + "7_0_0" + ".dtd\">"
  {
    assert "7.0" + Patch == "7.0.0";
    assert DotsToUnderscores("7.0.0") == "7_0_0";
  }
}
