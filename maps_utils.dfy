/**
 * Google Maps links (lib/maps-utils.ts): a location is a maps link when it
 * starts with one of four https prefixes, and is then displayed as a fixed
 * link text instead of the raw URL.
 */
module MapsUtils {

  import opened Wrappers
  import opened Strings

  /** The four anchored patterns, as literal prefixes. */
  const MapsPrefixes: seq<string> := [
    "https://maps.google.com",
    "https://www.google.com/maps",
    "https://goo.gl/maps",
    "https://maps.app.goo.gl"
  ]

  /** `isValidGoogleMapsUrl(url)`: some pattern matches at the start. */
  predicate IsValidGoogleMapsUrl(url: string)
    ensures IsValidGoogleMapsUrl(url) ==> |url| >= |"https://goo.gl/maps"|
  {
    exists i :: 0 <= i < |MapsPrefixes| && StartsWith(url, MapsPrefixes[i])
  }

  lemma StartsWithAppend(s: string, t: string, p: string)
    requires StartsWith(s, p)
    ensures StartsWith(s + t, p)
  {
    assert (s + t)[..|p|] == s[..|p|];
  }

  /** The test looks at a prefix only: whatever follows a maps link, it stays one. */
  lemma MapsLinkAnySuffix(url: string, rest: string)
    requires IsValidGoogleMapsUrl(url)
    ensures IsValidGoogleMapsUrl(url + rest)
  {
    var i :| 0 <= i < |MapsPrefixes| && StartsWith(url, MapsPrefixes[i]);
    StartsWithAppend(url, rest, MapsPrefixes[i]);
  }

  /** Each prefix is itself a maps link. */
  lemma PrefixesAreLinks(i: nat)
    requires i < |MapsPrefixes|
    ensures IsValidGoogleMapsUrl(MapsPrefixes[i])
  {
    assert StartsWith(MapsPrefixes[i], MapsPrefixes[i]);
  }

  /** Plain `http://` addresses are never maps links. */
  lemma {:induction false} HttpRejected(url: string)
    requires StartsWith(url, "http://")
    ensures !IsValidGoogleMapsUrl(url)
  {
    forall i | 0 <= i < |MapsPrefixes| ensures !StartsWith(url, MapsPrefixes[i]) {
      assert url[..7] == "http://";
      assert url[4] == ':';
      assert MapsPrefixes[i][4] == 's';
    }
  }

  /** Every maps link starts with "https://". */
  lemma {:induction false} LinksAreHttps(url: string)
    requires IsValidGoogleMapsUrl(url)
    ensures StartsWith(url, "https://")
  {
    var i :| 0 <= i < |MapsPrefixes| && StartsWith(url, MapsPrefixes[i]);
    assert url[..8] == MapsPrefixes[i][..8];
  }

  /** The display record of a location. */
  datatype LocationDisplay = LocationDisplay(text: string, isGoogleMapsLink: bool, url: Option<string>)

  /** The text shown for a maps link. */
  const MapsLinkText := "\U{1F4CD} View on Google Maps"

  /** `formatLocationDisplay(location)`. */
  function FormatLocationDisplay(location: string): (d: LocationDisplay)
    ensures d.isGoogleMapsLink <==> IsValidGoogleMapsUrl(location)
    ensures d.isGoogleMapsLink ==> d.text == MapsLinkText && d.url == Some(location)
    ensures !d.isGoogleMapsLink ==> d.text == location && d.url == None
  {
    if IsValidGoogleMapsUrl(location) then LocationDisplay(MapsLinkText, true, Some(location))
    else LocationDisplay(location, false, None)
  }

  /** The URL is kept exactly when the location is a link, and then it is the location itself. */
  lemma DisplayKeepsLocation(location: string)
    ensures var d := FormatLocationDisplay(location);
      (if d.url.Some? then d.url.value else d.text) == location
  {
  }
}
