/**
  Host names of crawled sites: `_infer_region_from_netloc` (app.py:3237-3244),
  which maps the top-level domain to the default phone region, and the
  crawler's `_normalize_netloc` (app.py:3531-3533), which decides whether a
  link stays on the start site.
*/
module Hosts {
  import opened Wrappers
  import opened Text

  /** `REGION_FROM_TLD`: upper-cased top-level domain to region code. */
  const REGION_FROM_TLD: map<string, string> := map[
    "US" := "US", "COM" := "US", "NET" := "US", "ORG" := "US",
    "CA" := "CA", "AU" := "AU", "NZ" := "NZ", "UK" := "GB", "GB" := "GB",
    "IE" := "IE", "DE" := "DE", "AT" := "AT", "CH" := "CH", "FR" := "FR",
    "ES" := "ES", "IT" := "IT", "NL" := "NL", "BE" := "BE", "SE" := "SE",
    "NO" := "NO", "DK" := "DK", "FI" := "FI", "PL" := "PL", "CZ" := "CZ",
    "SK" := "SK", "HU" := "HU", "PT" := "PT", "GR" := "GR", "RO" := "RO",
    "BG" := "BG", "HR" := "HR", "SI" := "SI", "LV" := "LV", "LT" := "LT",
    "EE" := "EE", "MX" := "MX", "BR" := "BR", "AR" := "AR", "CL" := "CL",
    "CO" := "CO", "PE" := "PE", "ZA" := "ZA", "IN" := "IN", "SG" := "SG",
    "MY" := "MY", "PH" := "PH", "TH" := "TH", "JP" := "JP", "KR" := "KR",
    "CN" := "CN", "HK" := "HK", "TW" := "TW"
  ]

  /** `s.split(".")[-1]`: what follows the last dot, or all of `s` without one. */
  function LastLabel(s: string): string {
    if s == [] then []
    else if s[|s| - 1] == '.' then []
    else LastLabel(s[..|s| - 1]) + [s[|s| - 1]]
  }

  /** The last label is a dot-free suffix of the host. */
  lemma {:induction false} LastLabelIsFinalSegment(s: string)
    ensures EndsWith(s, LastLabel(s))
    ensures '.' !in LastLabel(s)
    ensures |LastLabel(s)| < |s| ==> s[|s| - |LastLabel(s)| - 1] == '.'
  {
    if s != [] && s[|s| - 1] != '.' {
      var init := s[..|s| - 1];
      LastLabelIsFinalSegment(init);
      assert s[|s| - |LastLabel(s)|..] == init[|init| - |LastLabel(init)|..] + [s[|s| - 1]];
      if |LastLabel(s)| < |s| {
        assert s[|s| - |LastLabel(s)| - 1] == init[|init| - |LastLabel(init)| - 1];
      }
    }
  }

  /** Only the text after the last dot counts. */
  lemma {:induction false} LastLabelAfterDot(host: string, tld: string)
    requires '.' !in tld
    ensures LastLabel(host + "." + tld) == tld
  {
    if tld == [] {
      assert host + "." + tld == host + ".";
    } else {
      var init := tld[..|tld| - 1];
      LastLabelAfterDot(host, init);
      assert (host + "." + tld)[..|host + "." + tld| - 1] == host + "." + init;
      assert tld == init + [tld[|tld| - 1]];
    }
  }

  lemma {:induction false} LastLabelOfDotFree(s: string)
    requires '.' !in s
    ensures LastLabel(s) == s
  {
    if s != [] {
      LastLabelOfDotFree(s[..|s| - 1]);
      assert s == s[..|s| - 1] + [s[|s| - 1]];
    }
  }

  /** Lower-casing keeps the dots where they are. */
  lemma {:induction false} LastLabelOfLower(s: string)
    ensures LastLabel(Lower(s)) == Lower(LastLabel(s))
  {
    if s != [] {
      var init := s[..|s| - 1];
      LastLabelOfLower(init);
      assert Lower(s)[..|s| - 1] == Lower(init);
      if s[|s| - 1] != '.' {
        assert Lower(LastLabel(s)) == Lower(LastLabel(init)) + [LowerChar(s[|s| - 1])];
      }
    }
  }

  /** `_infer_region_from_netloc`. */
  function InferRegion(netloc: string): Option<string> {
    if netloc == [] then None
    else
      var tld := Upper(LastLabel(Lower(netloc)));
      if tld in REGION_FROM_TLD then Some(REGION_FROM_TLD[tld]) else None
  }

  /**
    A region is found exactly when the host is non-empty and its last label,
    in any letter case, is a known top-level domain; the region is that
    domain's entry in the table.
  */
  lemma InferRegionSpec(netloc: string)
    ensures InferRegion(netloc).Some? <==> netloc != [] && Upper(LastLabel(netloc)) in REGION_FROM_TLD
    ensures InferRegion(netloc).Some? ==>
      InferRegion(netloc).value == REGION_FROM_TLD[Upper(LastLabel(netloc))]
      && InferRegion(netloc).value in REGION_FROM_TLD.Values
  {
    LastLabelOfLower(netloc);
    UpperOfLower(LastLabel(netloc));
  }

  /** The region depends on the top-level domain alone. */
  lemma InferRegionOfDomain(host: string, tld: string)
    requires tld != [] && '.' !in tld
    ensures InferRegion(host + "." + tld) == InferRegion(tld)
  {
    InferRegionSpec(host + "." + tld);
    InferRegionSpec(tld);
    LastLabelAfterDot(host, tld);
    LastLabelOfDotFree(tld);
  }

  /** Letter case in the host does not matter. */
  lemma InferRegionIgnoresCase(netloc: string)
    ensures InferRegion(Upper(netloc)) == InferRegion(netloc)
    ensures InferRegion(Lower(netloc)) == InferRegion(netloc)
  {
    LowerOfUpper(netloc);
    assert Lower(Lower(netloc)) == Lower(netloc);
  }

  /** `_normalize_netloc`: lower-cased, with one leading `www.` removed. */
  function NormalizeNetloc(netloc: string): string {
    var l := Lower(netloc);
    if StartsWith(l, "www.") then l[4..] else l
  }

  /**
    The result is the lower-cased host minus one leading `www.`, and holds no
    upper-case letter.
  */
  lemma NormalizeNetlocSpec(netloc: string)
    ensures Lower(netloc) == if StartsWith(Lower(netloc), "www.") then "www." + NormalizeNetloc(netloc) else NormalizeNetloc(netloc)
    ensures forall i | 0 <= i < |NormalizeNetloc(netloc)| :: !IsUpperLetter(NormalizeNetloc(netloc)[i])
  {
    var l := Lower(netloc);
    if StartsWith(l, "www.") {
      assert l == l[..4] + l[4..];
    }
  }

  /** Hosts differing only in letter case are the same site. */
  lemma NormalizeNetlocIgnoresCase(netloc: string)
    ensures NormalizeNetloc(Upper(netloc)) == NormalizeNetloc(netloc)
  {
    LowerOfUpper(netloc);
  }

  /** Only one `www.` is removed, so normalising twice can remove a second one. */
  lemma NormalizeNetlocRemovesOneWww(host: string)
    requires host == "www.www.example"
    ensures NormalizeNetloc(host) == "www.example"
    ensures NormalizeNetloc(NormalizeNetloc(host)) == "example"
  {
    assert Lower(host) == host;
    assert host[..4] == "www.";
    assert host[4..] == "www.example";
    var once := "www.example";
    assert Lower(once) == once;
    assert once[..4] == "www.";
    assert once[4..] == "example";
  }
}
