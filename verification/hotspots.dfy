/** The live hotspot feed of frontend/src/components/LiveHotspotsMap.jsx: the
    NASA FIRMS country-CSV URL and the hand-rolled parse of the CSV text into
    one record per line. The parse splits on every ',' and '\n' with no
    quoting rules, trims only the whole text, and builds each record with
    `Object.fromEntries`, so a later entry for the same key wins. */
module Hotspots {
  import opened Base
  import opened Js
  import opened Text

  const FirmsCsvRoot := "https://firms.modaps.eosdis.nasa.gov/api/country/csv"
  const DefaultSensor := "MODIS_NRT"
  const DefaultDays: nat := 1
  const Country := "NPL"

  /** `FIRE_CSV_URL(key, sensor, days)` (LiveHotspotsMap.jsx lines 8-9); an
      omitted argument takes its default, 'MODIS_NRT' and 1. Days are a
      whole number of days. */
  function FireCsvUrl(key: string, sensor: Option<string>, days: Option<nat>): (u: string)
    ensures |u| > |FirmsCsvRoot| && u[..|FirmsCsvRoot|] == FirmsCsvRoot
  {
    var s := if sensor.Some? then sensor.value else DefaultSensor;
    var d := if days.Some? then days.value else DefaultDays;
    var path := key + "/" + s + "/" + Country + "/" + NatToString(d);
    FirmsCsvRoot + "/" + path
  }

  /** Joining four segments with '/'. */
  lemma JoinFour(a: string, b: string, c: string, d: string)
    ensures Join([a, b, c, d], '/') == a + "/" + b + "/" + c + "/" + d
  {
    var t := [a, b, c, d];
    assert t[1..][1..][1..] == [d];
    assert Join(t[2..], '/') == c + "/" + d;
    assert Join(t[1..], '/') == b + "/" + c + "/" + d;
  }

  /** The URL past the root and its '/': key, sensor, country and days,
      separated by '/'. */
  lemma UrlTail(key: string, sensor: Option<string>, days: Option<nat>)
    ensures var u := FireCsvUrl(key, sensor, days);
            && u[|FirmsCsvRoot|] == '/'
            && u[|FirmsCsvRoot| + 1..]
               == Join([key, if sensor.Some? then sensor.value else DefaultSensor, Country,
                        NatToString(if days.Some? then days.value else DefaultDays)], '/')
  {
    var s := if sensor.Some? then sensor.value else DefaultSensor;
    var d := NatToString(if days.Some? then days.value else DefaultDays);
    JoinFour(key, s, Country, d);
    var path := key + "/" + s + "/" + Country + "/" + d;
    assert (FirmsCsvRoot + "/" + path)[|FirmsCsvRoot| + 1..] == path;
  }

  /** A decimal numeral has no '/'. */
  lemma NoSlashInNumeral(n: nat)
    ensures '/' !in NatToString(n)
  {
    var d := NatToString(n);
    forall i | 0 <= i < |d| ensures d[i] != '/' {
      assert '0' <= d[i] <= '9';
    }
  }

  /** For a key and sensor without '/', the URL is the fixed FIRMS
      country-CSV root followed by four path segments: the key, the sensor
      (default 'MODIS_NRT'), the country code and the day count (default 1). */
  lemma UrlSegments(key: string, sensor: Option<string>, days: Option<nat>)
    requires '/' !in key
    requires sensor.Some? ==> '/' !in sensor.value
    ensures var u := FireCsvUrl(key, sensor, days);
            && u[|FirmsCsvRoot|] == '/'
            && Split(u[|FirmsCsvRoot| + 1..], '/')
               == [key, if sensor.Some? then sensor.value else DefaultSensor, Country,
                   NatToString(if days.Some? then days.value else DefaultDays)]
  {
    NoSlashInNumeral(if days.Some? then days.value else DefaultDays);
    UrlTail(key, sensor, days);
    SplitJoin([key, if sensor.Some? then sensor.value else DefaultSensor, Country,
               NatToString(if days.Some? then days.value else DefaultDays)], '/');
  }

  /** A feed record: field name to field text. */
  type Record = map<string, string>

  /** The key of field `i`: `headers[i]`, or the string "undefined" past the
      end of the header row (`String(undefined)` as a property key). */
  function KeyAt(headers: seq<string>, i: nat): string
  {
    if i < |headers| then headers[i] else "undefined"
  }

  /** The keys of the first `n` field positions. */
  function KeysUpTo(headers: seq<string>, n: nat): set<string>
  {
    if n == 0 then {} else KeysUpTo(headers, n - 1) + {KeyAt(headers, n - 1)}
  }

  /** A key is among the first `n` exactly when some position below `n` has it. */
  lemma {:induction false} KeysUpToIff(headers: seq<string>, n: nat, k: string)
    ensures k in KeysUpTo(headers, n) <==> exists i :: 0 <= i < n && KeyAt(headers, i) == k
  {
    if n > 0 {
      KeysUpToIff(headers, n - 1, k);
    }
  }

  /** Whether no field after `i` has the same key as field `i`. */
  predicate LastWithKey(headers: seq<string>, parts: seq<string>, i: nat)
  {
    forall j :: i < j < |parts| ==> KeyAt(headers, j) != KeyAt(headers, i)
  }

  /** `Object.fromEntries(parts.map((p, i) => [headers[i], p]))`
      (LiveHotspotsMap.jsx lines 88-89): one key per field position, and for a
      key that several fields share, the value of the last of them. */
  function MakeRecord(headers: seq<string>, parts: seq<string>): (m: Record)
    ensures m.Keys == KeysUpTo(headers, |parts|)
    ensures forall i :: 0 <= i < |parts| ==> KeyAt(headers, i) in m
    ensures forall i :: 0 <= i < |parts| && LastWithKey(headers, parts, i) ==> m[KeyAt(headers, i)] == parts[i]
    decreases |parts|
  {
    if parts == [] then map[]
    else
      var n := |parts| - 1;
      var pre := parts[..n];
      var prev := MakeRecord(headers, pre);
      var k := KeyAt(headers, n);
      var m := prev[k := parts[n]];
      assert m.Keys == prev.Keys + {k};
      forall i | 0 <= i < n && LastWithKey(headers, parts, i)
        ensures LastWithKey(headers, pre, i) && KeyAt(headers, i) != k && pre[i] == parts[i]
      {
        assert KeyAt(headers, n) != KeyAt(headers, i);
      }
      m
  }

  /** The header names: the first line split on ','. */
  function Headers(lines: seq<string>): (h: seq<string>)
    requires |lines| >= 1
    ensures |h| >= 1
  {
    Split(lines[0], ',')
  }

  /** The lines of the trimmed feed text. */
  function Lines(text: string): seq<string>
  {
    Split(Trim(text), '\n')
  }

  /** The parse inside the map's fetch effect (LiveHotspotsMap.jsx lines
      85-90): trim the text, split it into lines, take the first line as the
      header row and turn every later line into a record. */
  function ParseFeed(text: string): (records: seq<Record>)
    ensures |records| == |Lines(text)| - 1
    ensures forall k :: 0 <= k < |records| ==>
              records[k] == MakeRecord(Headers(Lines(text)), Split(Lines(text)[k + 1], ','))
  {
    var lines := Lines(text);
    var headers := Headers(lines);
    seq(|lines| - 1, k requires 0 <= k < |lines| - 1 => MakeRecord(headers, Split(lines[k + 1], ',')))
  }

  /** The record count is the number of lines of the trimmed text minus one,
      and a feed of nothing but whitespace yields no records (the lone empty
      line is the header row). */
  lemma EmptyFeed(text: string)
    requires AllSpace(text)
    ensures ParseFeed(text) == []
  {
    assert Trim(text) == [];
  }

  /** A line with fewer fields than there are headers yields a record without
      the trailing header keys, unless an earlier field shares the name. */
  lemma ShortLineMissesKeys(headers: seq<string>, parts: seq<string>, j: nat)
    requires |parts| <= j < |headers|
    requires forall i :: 0 <= i < |parts| ==> headers[i] != headers[j]
    ensures headers[j] !in MakeRecord(headers, parts)
  {
    KeysUpToIff(headers, |parts|, headers[j]);
    assert forall i :: 0 <= i < |parts| ==> KeyAt(headers, i) != headers[j];
  }

  /** Fields past the header row all land on the key "undefined", the last
      one winning. */
  lemma ExtraFieldsUndefined()
    ensures MakeRecord(["a", "b"], ["1", "2", "3", "4"]) == map["a" := "1", "b" := "2", "undefined" := "4"]
  {
    var h := ["a", "b"];
    var p := ["1", "2", "3", "4"];
    assert p[..3] == ["1", "2", "3"] && p[..3][..2] == ["1", "2"];
    assert p[..3][..2][..1] == ["1"] && p[..3][..2][..1][..0] == [];
    assert MakeRecord(h, ["1"]) == map["a" := "1"];
    assert MakeRecord(h, ["1", "2"]) == map["a" := "1", "b" := "2"];
    assert MakeRecord(h, ["1", "2", "3"]) == map["a" := "1", "b" := "2", "undefined" := "3"];
  }

  /** With a duplicate header name the later column wins. */
  lemma DuplicateHeaderLaterWins()
    ensures MakeRecord(["a", "a"], ["1", "2"]) == map["a" := "2"]
  {
    var p := ["1", "2"];
    assert p[..1] == ["1"] && p[..1][..0] == [];
    assert MakeRecord(["a", "a"], ["1"]) == map["a" := "1"];
  }

  /** Quotes protect nothing: a quoted comma splits the field. */
  lemma QuotedCommaSplits()
    ensures Split("\"x,y\",z", ',') == ["\"x", "y\"", "z"]
  {
    SplitPrefix("\"x", "y\",z", ',');
    SplitPrefix("y\"", "z", ',');
    SplitPiece("z", ',');
    assert "\"x,y\",z" == "\"x" + [','] + "y\",z";
    assert "y\",z" == "y\"" + [','] + "z";
  }

  /** Only the outer whitespace of the whole text is trimmed: with CRLF line
      ends, the '\r' of an inner line stays at the end of its last field. */
  lemma CarriageReturnStays()
    ensures Split("a,b\r\n1,2", '\n') == ["a,b\r", "1,2"]
    ensures Split("a,b\r", ',') == ["a", "b\r"]
  {
    SplitPrefix("a,b\r", "1,2", '\n');
    SplitPiece("1,2", '\n');
    assert "a,b\r\n1,2" == "a,b\r" + ['\n'] + "1,2";
    SplitPrefix("a", "b\r", ',');
    SplitPiece("b\r", ',');
    assert "a,b\r" == "a" + [','] + "b\r";
  }
}
