/**
 The filename resolver, `parseName` in main.go. `mime.ParseMediaType` is not
 modelled: it is passed in as a function from a header value to its parameter
 map, `None` standing for a parse error (whose nil map yields no filename).
 */
module Naming {
  import opened Wrappers
  import opened Strings

  const IdMarker := "?id="
  const Sentinel := "empty"

  /** The parameter map the resolver reads, given what the media-type parser returned. */
  function Params(parsed: Option<map<string, string>>): map<string, string> {
    match parsed
    case Some(m) => m
    case None => map[]
  }

  /** The id `parseName` takes from a URL: what follows `?id=` when splitting on it yields two parts, else nothing. */
  function IdOf(url: string): string {
    var parts := Split(url, IdMarker);
    if |parts| == 2 then parts[1] else ""
  }

  /** `parseName(disp, url)`. */
  function ParseName(disp: string, url: string, parse: string -> Option<map<string, string>>): string {
    var idPrefix := IdOf(url);
    if disp == "" then
      if idPrefix != "" then idPrefix else Sentinel
    else
      var params := Params(parse(disp));
      if "filename" in params then params["filename"] else Sentinel
  }

  /** No proper suffix of `?id=` starts with `?`, so two occurrences of the marker never overlap. */
  lemma IdMarkerSelfDisjoint()
    ensures SelfDisjoint(IdMarker)
  {
  }

  /** Without a header, a URL holding `?id=` exactly once, with a non-empty id after it, is named by that id. */
  lemma ParseNameUsesUniqueId(url: string, k: nat, parse: string -> Option<map<string, string>>)
    requires UniqueOccurrence(url, IdMarker, k) && k + |IdMarker| < |url|
    ensures ParseName("", url, parse) == url[k + |IdMarker|..]
  {
    SplitAtUniqueOccurrence(url, IdMarker, k);
  }

  /**
   Without a header, the name is the sentinel unless `?id=` occurs exactly once
   with a non-empty id after it, in which case it is that id.
   */
  lemma ParseNameWithoutHeader(url: string, parse: string -> Option<map<string, string>>)
    ensures var r := ParseName("", url, parse);
      r == Sentinel ||
      exists k: nat :: UniqueOccurrence(url, IdMarker, k) && k + |IdMarker| < |url| && r == url[k + |IdMarker|..]
  {
    var parts := Split(url, IdMarker);
    if |parts| == 2 && parts[1] != "" {
      IdMarkerSelfDisjoint();
      SplitPairIsUniqueOccurrence(url, IdMarker);
      var k := |parts[0]|;
      assert UniqueOccurrence(url, IdMarker, k) && k + |IdMarker| < |url|;
    }
  }

  /** A URL with no `?id=`, or with it more than once, or with nothing after it, gets the sentinel. */
  lemma ParseNameSentinelWithoutUniqueId(url: string, parse: string -> Option<map<string, string>>)
    requires forall k: nat :: !(UniqueOccurrence(url, IdMarker, k) && k + |IdMarker| < |url|)
    ensures ParseName("", url, parse) == Sentinel
  {
    ParseNameWithoutHeader(url, parse);
  }

  /**
   With a header, the URL plays no part (no id is prepended): the name is the
   header's `filename` parameter if the parse yields one, and the sentinel otherwise.
   */
  lemma ParseNameWithHeader(disp: string, url: string, url': string, parse: string -> Option<map<string, string>>)
    requires disp != ""
    ensures ParseName(disp, url, parse) == ParseName(disp, url', parse)
    ensures parse(disp).Some? && "filename" in parse(disp).value ==> ParseName(disp, url, parse) == parse(disp).value["filename"]
    ensures parse(disp).None? || "filename" !in parse(disp).value ==> ParseName(disp, url, parse) == Sentinel
  {
  }

  /** `?id=` occurs exactly once in `a + "?id=" + b` when neither part holds a `?`. */
  lemma MarkerBetween(a: string, b: string)
    requires '?' !in a && '?' !in b
    ensures UniqueOccurrence(a + IdMarker + b, IdMarker, |a|)
  {
    var url := a + IdMarker + b;
    assert url[|a|..|a| + |IdMarker|] == IdMarker;
    forall j: nat | j != |a| ensures !OccursAt(url, IdMarker, j) {
      if j + |IdMarker| <= |url| {
        assert url[j..j + |IdMarker|][0] == url[j];
        if j < |a| {
          assert url[j] == a[j];
        } else if j < |a| + |IdMarker| {
          assert url[j] == IdMarker[j - |a|];
        } else {
          assert url[j] == b[j - |a| - |IdMarker|];
        }
      }
    }
  }

  /** A resource URL with a numeric id and no header is named by the id. */
  lemma ParseNameExampleId(parse: string -> Option<map<string, string>>)
    ensures ParseName("", "view.php?id=42", parse) == "42"
  {
    MarkerBetween("view.php", "42");
    assert "view.php" + IdMarker + "42" == "view.php?id=42";
    ParseNameUsesUniqueId("view.php?id=42", 8, parse);
  }

  /** Two ids in one URL give the sentinel, not either id. */
  lemma ParseNameExampleTwoIds(parse: string -> Option<map<string, string>>)
    ensures ParseName("", "v.php?id=1?id=2", parse) == Sentinel
  {
    var url := "v.php?id=1?id=2";
    forall k: nat ensures !UniqueOccurrence(url, IdMarker, k) {
      assert OccursAt(url, IdMarker, 5) && OccursAt(url, IdMarker, 10);
    }
    ParseNameSentinelWithoutUniqueId(url, parse);
  }

  /**
   As written, two resources with different ids whose headers carry the same
   `filename` get the same name, so one file overwrites or hides the other.
   */
  lemma ParseNameCollides(disp: string, parse: string -> Option<map<string, string>>)
    requires disp != ""
    ensures IdOf("view.php?id=1") == "1" && IdOf("view.php?id=2") == "2"
    ensures ParseName(disp, "view.php?id=1", parse) == ParseName(disp, "view.php?id=2", parse)
  {
    MarkerBetween("view.php", "1");
    MarkerBetween("view.php", "2");
    assert "view.php" + IdMarker + "1" == "view.php?id=1";
    assert "view.php" + IdMarker + "2" == "view.php?id=2";
    SplitAtUniqueOccurrence("view.php?id=1", IdMarker, 8);
    SplitAtUniqueOccurrence("view.php?id=2", IdMarker, 8);
  }

  /** The character put between the id and a header-supplied filename in the intended name. */
  const IdSeparator := '_'

  /**
   The name `parseName` evidently means to give, as its `idPrefix` variable
   says: the id and `_` prefixed to the header's `filename` parameter (the
   filename alone when there is no id), the id alone when there is no header
   or it has no `filename`, and the sentinel when neither yields anything.
   */
  function IntendedName(disp: string, url: string, parse: string -> Option<map<string, string>>): string {
    var idPrefix := IdOf(url);
    var params := if disp == "" then map[] else Params(parse(disp));
    if "filename" in params then
      if idPrefix != "" then idPrefix + [IdSeparator] + params["filename"] else params["filename"]
    else if idPrefix != "" then idPrefix
    else Sentinel
  }

  /** Without a header, the intended name is the name `parseName` gives. */
  lemma IntendedNameWithoutHeader(url: string, parse: string -> Option<map<string, string>>)
    ensures IntendedName("", url, parse) == ParseName("", url, parse)
  {
  }

  /** A string of decimal digits, the form of the portal's resource ids. */
  predicate Numeric(s: string) {
    forall i :: 0 <= i < |s| ==> '0' <= s[i] <= '9'
  }

  /** A string of digits never equals a string holding the separator. */
  lemma NumericLacksSeparator(a: string, b: string, y: string)
    requires Numeric(a)
    ensures a != b + [IdSeparator] + y
  {
    assert (b + [IdSeparator] + y)[|b|] == IdSeparator;
  }

  /** The separator ends a numeric prefix, so two separated names with numeric prefixes agree on the prefix. */
  lemma NumericPrefixesAgree(a: string, x: string, b: string, y: string)
    requires Numeric(a) && Numeric(b)
    requires a + [IdSeparator] + x == b + [IdSeparator] + y
    ensures a == b
  {
    var s := a + [IdSeparator] + x;
    var t := b + [IdSeparator] + y;
    assert s[|a|] == IdSeparator && t[|b|] == IdSeparator;
    assert |b| <= |a|;
    assert |a| <= |b|;
    assert a == s[..|a|] == t[..|b|] == b;
  }

  /**
   Two URLs with different numeric ids after a unique `?id=` never get the
   same intended name, whatever headers their HEAD requests return.
   */
  lemma IntendedNameSeparatesIds(disp1: string, url1: string, k1: nat, disp2: string, url2: string, k2: nat,
                                 parse: string -> Option<map<string, string>>)
    requires UniqueOccurrence(url1, IdMarker, k1) && k1 + |IdMarker| < |url1|
    requires UniqueOccurrence(url2, IdMarker, k2) && k2 + |IdMarker| < |url2|
    requires Numeric(url1[k1 + |IdMarker|..]) && Numeric(url2[k2 + |IdMarker|..])
    requires url1[k1 + |IdMarker|..] != url2[k2 + |IdMarker|..]
    ensures IntendedName(disp1, url1, parse) != IntendedName(disp2, url2, parse)
  {
    SplitAtUniqueOccurrence(url1, IdMarker, k1);
    SplitAtUniqueOccurrence(url2, IdMarker, k2);
    var id1, id2 := IdOf(url1), IdOf(url2);
    assert id1 == url1[k1 + |IdMarker|..] && id2 == url2[k2 + |IdMarker|..];
    var params1 := if disp1 == "" then map[] else Params(parse(disp1));
    var params2 := if disp2 == "" then map[] else Params(parse(disp2));
    if "filename" in params1 && "filename" in params2 {
      if id1 + [IdSeparator] + params1["filename"] == id2 + [IdSeparator] + params2["filename"] {
        NumericPrefixesAgree(id1, params1["filename"], id2, params2["filename"]);
      }
    } else if "filename" in params2 {
      NumericLacksSeparator(id1, id2, params2["filename"]);
    } else if "filename" in params1 {
      NumericLacksSeparator(id2, id1, params1["filename"]);
    }
  }
}
