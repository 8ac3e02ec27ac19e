/**
 * GSLB text formats: gslbHandler.js prints destinations and monitor lists, configManager.js splits them again.
 */
module Gslb {
  import opened Text

  // ---------------------------------------------------------------- destinations

  datatype Destination = Destination(address: string, port: Number)

  predicate IsSeparator(c: char) { c == '.' || c == ':' }

  /** An IPv6 address is followed by a dot, any other address by a colon. */
  function DestinationText(address: string, port: nat): string
  {
    address + (if ':' in address then "." else ":") + IntText(port)
  }

  /** Everything up to the last separator, or nothing when there is none. */
  function BeforeLastSeparator(s: string): (k: int)
    ensures -1 <= k < |s|
    ensures k >= 0 ==> IsSeparator(s[k])
    ensures forall j :: k < j < |s| ==> !IsSeparator(s[j])
  {
    if s == "" then -1
    else if IsSeparator(s[|s| - 1]) then |s| - 1
    else BeforeLastSeparator(s[..|s| - 1])
  }

  /** `destination.split(/(\.|:)(?=[^.:]*$)/)`: one split, at the last separator. */
  function SplitDestination(s: string): Destination
  {
    var k := BeforeLastSeparator(s);
    if k < 0 then Destination(s, NaN)
    else Destination(s[..k], ParseInt(s[k + 1..]))
  }

  /** Every address, even one full of separators, and every port come back from the printed destination. */
  lemma DestinationRoundTrip(address: string, port: nat)
    ensures SplitDestination(DestinationText(address, port)) == Destination(address, Int(port))
  {
    var s := DestinationText(address, port);
    var k := |address|;
    ParseIntText(port);
    IntTextChars(port);
    assert IsSeparator(s[k]) && s[..k] == address && s[k + 1..] == IntText(port);
    forall j | k < j < |s|
      ensures !IsSeparator(s[j])
    {
      assert s[j] == IntText(port)[j - k - 1];
      assert s[j] in IntText(port);
    }
    assert BeforeLastSeparator(s) == k;
  }

  /** Different endpoints never print the same destination. */
  lemma DestinationInjective(a: string, p: nat, b: string, q: nat)
    requires DestinationText(a, p) == DestinationText(b, q)
    ensures a == b && p == q
  {
    DestinationRoundTrip(a, p);
    DestinationRoundTrip(b, q);
  }

  // ---------------------------------------------------------------- monitor lists

  /** mapMonitors: an empty list prints as the empty string. */
  function MapMonitors(monitors: seq<string>): string
  {
    if |monitors| > 0 then Join(monitors, " and ") else ""
  }

  function GetGtmMonitorArray(monitorString: string): seq<string>
  {
    if monitorString != "" then Split(monitorString, " and ") else []
  }

  lemma JoinEmpty(parts: seq<string>, sep: string)
    requires sep != ""
    ensures Join(parts, sep) == "" <==> parts == [] || parts == [""]
  {
  }

  /** Space-free names survive printing and splitting, except for the list that holds only the empty name. */
  lemma MonitorsRoundTrip(monitors: seq<string>)
    requires forall m <- monitors :: ' ' !in m
    ensures GetGtmMonitorArray(MapMonitors(monitors)) == monitors <==> monitors != [""]
  {
    JoinEmpty(monitors, " and ");
    if monitors != [] {
      SplitJoin(monitors, " and ");
    }
  }

  // ---------------------------------------------------------------- what the device expects

  /** IPv4 addresses and names are followed by a colon, IPv6 addresses by a dot; monitors are joined by "and". */
  lemma PrintedForms()
    ensures DestinationText("192.0.2.1", 80) == "192.0.2.1:80"
    ensures DestinationText("2001:db8::1", 80) == "2001:db8::1.80"
    ensures MapMonitors(["/Common/http", "/Common/tcp"]) == "/Common/http and /Common/tcp"
  {
    assert Digits(8) == "8";
    assert IntText(80) == "80";
    assert "2001:db8::1"[4] == ':';
    assert Join(["/Common/tcp"], " and ") == "/Common/tcp";
    assert ["/Common/http", "/Common/tcp"][1..] == ["/Common/tcp"];
  }
}
