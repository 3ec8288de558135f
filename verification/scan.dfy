/** The high-risk district scan of backend/services/scan.py: every district is
    probed (weather, elevation and the model's risk label, here an input per
    district), the "High" ones are collected in district order, sorted by
    temperature descending with Python's stable `sorted`, and the first 12
    kept. */
module Scan {
  import opened Base
  import opened Lists

  /** A district of the district list: its name and location. */
  datatype District = District(name: string, lat: real, lon: real)

  /** The four fields `get_weather_for_location` returns. */
  datatype Weather = Weather(temperature: real, humidity: real, windSpeed: real, precipitation: real)

  /** What the `try` block makes of one district: it raised (weather,
      elevation or prediction failed), or it measured the weather and
      elevation and the model predicted the label `risk`. */
  datatype Probe =
    | Raised
    | Measured(weather: Weather, elevation: real, risk: string)

  /** `{**weather, "elevation": elevation}`. */
  datatype Details = Details(temperature: real, humidity: real, windSpeed: real,
                             precipitation: real, elevation: real)

  /** One entry of the result: district, location, risk label and details. */
  datatype HighRisk = HighRisk(district: string, lat: real, lon: real, risk: string, details: Details)

  /** How many of the hottest districts the scan keeps (`[:12]`). */
  const TopCount: nat := 12

  /** A probe that the scan keeps: it did not raise and its label is "High". */
  predicate IsHigh(p: Probe)
  {
    p.Measured? && p.risk == "High"
  }

  /** The entry `results.append` builds for a district (scan.py lines 37-42). */
  function Entry(d: District, p: Probe): (e: HighRisk)
    requires p.Measured?
    ensures e.district == d.name && e.lat == d.lat && e.lon == d.lon && e.risk == p.risk
    ensures e.details.temperature == p.weather.temperature
    ensures e.details.humidity == p.weather.humidity
    ensures e.details.windSpeed == p.weather.windSpeed
    ensures e.details.precipitation == p.weather.precipitation
    ensures e.details.elevation == p.elevation
  {
    var w := p.weather;
    HighRisk(d.name, d.lat, d.lon, p.risk,
             Details(w.temperature, w.humidity, w.windSpeed, w.precipitation, p.elevation))
  }

  /** The loop over the districts (scan.py lines 18-45 and 64-86): the entries
      of the districts whose probe is "High", in district order; a district
      whose probe raised is skipped. */
  function Collect(ds: seq<District>, ps: seq<Probe>): (r: seq<HighRisk>)
    requires |ds| == |ps|
    ensures |r| <= |ds|
    ensures forall k :: 0 <= k < |r| ==> r[k].risk == "High"
  {
    if ds == [] then []
    else (if IsHigh(ps[0]) then [Entry(ds[0], ps[0])] else []) + Collect(ds[1..], ps[1..])
  }

  /** Every collected entry is the entry of a district probed "High". */
  lemma {:induction false} CollectFromHighDistricts(ds: seq<District>, ps: seq<Probe>, k: nat)
    requires |ds| == |ps| && k < |Collect(ds, ps)|
    ensures exists i :: 0 <= i < |ds| && IsHigh(ps[i]) && Collect(ds, ps)[k] == Entry(ds[i], ps[i])
  {
    var rest := Collect(ds[1..], ps[1..]);
    var head := if IsHigh(ps[0]) then [Entry(ds[0], ps[0])] else [];
    assert Collect(ds, ps) == head + rest;
    if k < |head| {
      assert Collect(ds, ps)[k] == Entry(ds[0], ps[0]);
    } else {
      assert Collect(ds, ps)[k] == rest[k - |head|];
      CollectFromHighDistricts(ds[1..], ps[1..], k - |head|);
      var j :| 0 <= j < |ds[1..]| && IsHigh(ps[1..][j]) && rest[k - |head|] == Entry(ds[1..][j], ps[1..][j]);
      assert ds[1..][j] == ds[j + 1] && ps[1..][j] == ps[j + 1];
    }
  }

  /** Every district probed "High" has its entry in the collected list. */
  lemma {:induction false} CollectKeepsEveryHigh(ds: seq<District>, ps: seq<Probe>, i: nat)
    requires |ds| == |ps| && i < |ds| && IsHigh(ps[i])
    ensures Entry(ds[i], ps[i]) in Collect(ds, ps)
  {
    var rest := Collect(ds[1..], ps[1..]);
    var head := if IsHigh(ps[0]) then [Entry(ds[0], ps[0])] else [];
    assert Collect(ds, ps) == head + rest;
    if i > 0 {
      assert ds[1..][i - 1] == ds[i] && ps[1..][i - 1] == ps[i];
      CollectKeepsEveryHigh(ds[1..], ps[1..], i - 1);
      assert Entry(ds[i], ps[i]) in rest;
    } else {
      assert (head + rest)[0] == Entry(ds[0], ps[0]);
    }
  }

  /** A district whose probe raises contributes nothing, and the scan goes on
      with the districts after it (scan.py lines 44-45, 85-86). */
  lemma {:induction false} RaisedIsSkipped(ds: seq<District>, ps: seq<Probe>, i: nat)
    requires |ds| == |ps| && i < |ds| && ps[i] == Raised
    ensures Collect(ds, ps) == Collect(ds[..i] + ds[i + 1..], ps[..i] + ps[i + 1..])
  {
    if i > 0 {
      var ds' := ds[..i] + ds[i + 1..];
      var ps' := ps[..i] + ps[i + 1..];
      assert ds'[1..] == ds[1..][..i - 1] + ds[1..][i..];
      assert ps'[1..] == ps[1..][..i - 1] + ps[1..][i..];
      RaisedIsSkipped(ds[1..], ps[1..], i - 1);
      assert ds'[0] == ds[0] && ps'[0] == ps[0];
    } else {
      assert ds[..0] + ds[1..] == ds[1..];
      assert ps[..0] + ps[1..] == ps[1..];
    }
  }

  /** The sort key `-d["details"]["temperature"]`, negated back. */
  function Temp(e: HighRisk): real
  {
    e.details.temperature
  }

  predicate NonIncreasing(s: seq<HighRisk>)
  {
    forall i, j :: 0 <= i < j < |s| ==> Temp(s[i]) >= Temp(s[j])
  }

  /** Where a stable descending insertion puts `x`: after every element at
      least as hot. */
  function InsertPos(s: seq<HighRisk>, x: HighRisk): (k: nat)
    ensures k <= |s|
    ensures forall i :: 0 <= i < k ==> Temp(s[i]) >= Temp(x)
    ensures k < |s| ==> Temp(s[k]) < Temp(x)
  {
    if s == [] || Temp(s[0]) < Temp(x) then 0 else 1 + InsertPos(s[1..], x)
  }

  /** Inserts `x` into a list sorted hottest first, after the elements at least
      as hot as `x` and before the cooler ones. */
  function Insert(s: seq<HighRisk>, x: HighRisk): (r: seq<HighRisk>)
    requires NonIncreasing(s)
    ensures NonIncreasing(r)
    ensures |r| == |s| + 1
  {
    var k := InsertPos(s, x);
    var r := s[..k] + [x] + s[k..];
    InsertSorted(s, x, k, r);
    r
  }

  /** Insertion adds `x` and loses nothing. */
  lemma InsertPermutes(s: seq<HighRisk>, x: HighRisk)
    requires NonIncreasing(s)
    ensures multiset(Insert(s, x)) == multiset(s) + multiset{x}
  {
    var k := InsertPos(s, x);
    assert s == s[..k] + s[k..];
    assert Insert(s, x) == s[..k] + [x] + s[k..];
  }

  lemma InsertSorted(s: seq<HighRisk>, x: HighRisk, k: nat, r: seq<HighRisk>)
    requires NonIncreasing(s) && k <= |s|
    requires forall i :: 0 <= i < k ==> Temp(s[i]) >= Temp(x)
    requires k < |s| ==> Temp(s[k]) < Temp(x)
    requires r == s[..k] + [x] + s[k..]
    ensures NonIncreasing(r)
  {
    assert forall i :: 0 <= i < k ==> r[i] == s[i];
    assert r[k] == x;
    assert forall i :: k < i < |r| ==> r[i] == s[i - 1];
    forall i, j | 0 <= i < j < |r| ensures Temp(r[i]) >= Temp(r[j]) {
      if j < k {
      } else if j == k {
      } else if i < k {
      } else if i == k {
        assert Temp(s[j - 1]) <= Temp(s[k]);
      } else {
      }
    }
  }

  /** `sorted(results, key=lambda d: -d["details"]["temperature"])`: hottest
      first, and (the sort being stable) equal temperatures in input order. */
  function SortByTemp(s: seq<HighRisk>): (r: seq<HighRisk>)
    ensures NonIncreasing(r)
    ensures multiset(r) == multiset(s)
    ensures |r| == |s|
  {
    if s == [] then []
    else
      var p := s[..|s| - 1];
      assert s == p + [s[|s| - 1]];
      InsertPermutes(SortByTemp(p), s[|s| - 1]);
      Insert(SortByTemp(p), s[|s| - 1])
  }

  /** The entries with temperature `t`. */
  function WithTemp(t: real): HighRisk -> bool
  {
    e => Temp(e) == t
  }

  /** Inserting `x` leaves the entries of each temperature in order, `x` coming
      after the ones as hot as it. */
  lemma InsertKeepsTies(s: seq<HighRisk>, x: HighRisk, t: real)
    requires NonIncreasing(s)
    ensures Filter(Insert(s, x), WithTemp(t)) == Filter(s, WithTemp(t)) + Filter([x], WithTemp(t))
  {
    var k := InsertPos(s, x);
    var keep := WithTemp(t);
    var a, b := s[..k], s[k..];
    assert Insert(s, x) == a + [x] + b;
    assert s == a + b;
    if Temp(x) == t {
      CoolerTail(s, x, k, t);
      FilterSpliceLast(a, x, b, keep);
    } else {
      FilterSpliceSkip(a, x, b, keep);
    }
  }

  /** After the insertion point every entry is cooler than `x`, so none has
      `x`'s temperature. */
  lemma CoolerTail(s: seq<HighRisk>, x: HighRisk, k: nat, t: real)
    requires NonIncreasing(s) && k == InsertPos(s, x) && Temp(x) == t
    ensures forall i :: 0 <= i < |s[k..]| ==> !WithTemp(t)(s[k..][i])
  {
    var b := s[k..];
    forall i | 0 <= i < |b| ensures !WithTemp(t)(b[i]) {
      assert Temp(s[k + i]) <= Temp(s[k]);
    }
  }

  /** The sort is stable: for every temperature, the entries with that
      temperature appear in the same relative order as in the input. */
  lemma {:induction false} SortIsStable(s: seq<HighRisk>, t: real)
    ensures Filter(SortByTemp(s), WithTemp(t)) == Filter(s, WithTemp(t))
  {
    if s != [] {
      var p := s[..|s| - 1];
      var x := s[|s| - 1];
      assert s == p + [x];
      SortIsStable(p, t);
      InsertKeepsTies(SortByTemp(p), x, t);
      FilterAppend(p, [x], WithTemp(t));
    }
  }

  /** `scan_nepal_only()` (scan.py lines 62-89): the collected "High" entries,
      hottest first, at most 12. */
  function ScanOnly(ds: seq<District>, ps: seq<Probe>): (r: seq<HighRisk>)
    requires |ds| == |ps|
    ensures |r| <= TopCount
    ensures |r| == Min(TopCount, |Collect(ds, ps)|)
    ensures NonIncreasing(r)
    ensures forall k :: 0 <= k < |r| ==> r[k].risk == "High" && r[k] in Collect(ds, ps)
  {
    var c := Collect(ds, ps);
    var s := SortByTemp(c);
    var r := s[..Min(TopCount, |s|)];
    forall k | 0 <= k < |r| ensures r[k] in c {
      assert r[k] == s[k];
      assert s[k] in multiset(s);
    }
    r
  }

  /** Which entries are kept: each collected entry at most as often as it
      was collected, and for every temperature, the kept entries with that
      temperature are the first ones with that temperature in district order
      (the sort is stable and the cut takes a prefix). */
  lemma {:induction false} ScanKeepsDistrictOrder(ds: seq<District>, ps: seq<Probe>, t: real)
    requires |ds| == |ps|
    ensures multiset(ScanOnly(ds, ps)) <= multiset(Collect(ds, ps))
    ensures var kept := Filter(ScanOnly(ds, ps), WithTemp(t));
            var all := Filter(Collect(ds, ps), WithTemp(t));
            |kept| <= |all| && kept == all[..|kept|]
  {
    var c := Collect(ds, ps);
    var s := SortByTemp(c);
    var r := ScanOnly(ds, ps);
    assert r == s[..Min(TopCount, |s|)];
    assert s == r + s[|r|..];
    assert multiset(s) == multiset(r) + multiset(s[|r|..]);
    FilterAppend(r, s[|r|..], WithTemp(t));
    SortIsStable(c, t);
    var kept := Filter(r, WithTemp(t));
    assert Filter(c, WithTemp(t)) == kept + Filter(s[|r|..], WithTemp(t));
  }

  /** The kept entries are the hottest ones: every collected "High" entry
      left out is no hotter than any kept one, and when at most 12 districts
      are "High" all of them are kept. */
  lemma ScanKeepsHottest(ds: seq<District>, ps: seq<Probe>)
    requires |ds| == |ps|
    ensures var c := Collect(ds, ps);
            var r := ScanOnly(ds, ps);
            && (forall e :: e in c && e !in r ==> forall k :: 0 <= k < |r| ==> Temp(e) <= Temp(r[k]))
            && (|c| <= TopCount ==> multiset(r) == multiset(c))
  {
    var c := Collect(ds, ps);
    var s := SortByTemp(c);
    var r := ScanOnly(ds, ps);
    assert r == s[..Min(TopCount, |s|)];
    forall e | e in c && e !in r ensures forall k :: 0 <= k < |r| ==> Temp(e) <= Temp(r[k]) {
      assert e in multiset(s);
      PrefixIsHottest(s, |r|, e);
    }
    if |c| <= TopCount {
      assert r == s;
    }
  }

  /** In a list sorted hottest first, an entry outside a prefix is no hotter
      than any entry of the prefix. */
  lemma PrefixIsHottest(s: seq<HighRisk>, m: nat, e: HighRisk)
    requires NonIncreasing(s) && m <= |s| && e in s && e !in s[..m]
    ensures forall k :: 0 <= k < m ==> Temp(e) <= Temp(s[k])
  {
    forall i | 0 <= i < m ensures s[i] != e {
      assert s[i] == s[..m][i];
    }
    var j :| 0 <= j < |s| && s[j] == e;
  }

  /** `e` is the entry of district `i`, probed "High": that district's name
      and own location, and its weather plus elevation as details. */
  predicate EntryOf(e: HighRisk, ds: seq<District>, ps: seq<Probe>, i: int)
    requires |ds| == |ps|
  {
    && 0 <= i < |ds| && IsHigh(ps[i])
    && e.district == ds[i].name && e.lat == ds[i].lat && e.lon == ds[i].lon
    && e.details == Details(ps[i].weather.temperature, ps[i].weather.humidity,
                            ps[i].weather.windSpeed, ps[i].weather.precipitation,
                            ps[i].elevation)
  }

  /** Each result entry is the entry of some district probed "High"
      (scan.py lines 37-42, 79-84). */
  lemma ScanEntriesFromDistricts(ds: seq<District>, ps: seq<Probe>, k: nat)
    requires |ds| == |ps| && k < |ScanOnly(ds, ps)|
    ensures exists i :: EntryOf(ScanOnly(ds, ps)[k], ds, ps, i)
  {
    var r := ScanOnly(ds, ps);
    var c := Collect(ds, ps);
    var j :| 0 <= j < |c| && c[j] == r[k];
    CollectFromHighDistricts(ds, ps, j);
    var i :| 0 <= i < |ds| && IsHigh(ps[i]) && c[j] == Entry(ds[i], ps[i]);
    assert EntryOf(r[k], ds, ps, i);
  }

  /** The keyword arguments `FireAlert` requires (alert_model.py lines 5-14):
      the fields without a default. */
  const FireAlertRequired: set<string> :=
    {"title", "message", "district", "latitude", "longitude", "risk_level",
     "probability", "weather_data", "precautions"}

  /** The keyword arguments the scan passes to `FireAlert` (scan.py lines 52-57). */
  const ScanAlertArguments: set<string> := {"district", "risk_level", "location", "reason"}

  /** Constructing a pydantic model: a `ValidationError` when a required field
      is missing; unknown keyword arguments are ignored. */
  function ValidateAlert(given: set<string>): (r: Result<(), string>)
    ensures r.Ok? <==> FireAlertRequired <= given
  {
    if FireAlertRequired <= given then Ok(()) else Err("ValidationError")
  }

  /** `scan_nepal_and_generate_alerts()` as written (scan.py lines 15-59): the
      same selection, then one `FireAlert(...)` per kept entry, outside the
      `try`; the first construction that fails propagates. */
  function ScanAndGenerateAlertsAsWritten(ds: seq<District>, ps: seq<Probe>): (r: Result<seq<HighRisk>, string>)
    requires |ds| == |ps|
    ensures r.Ok? ==> r.value == ScanOnly(ds, ps)
  {
    var top := ScanOnly(ds, ps);
    if top != [] && ValidateAlert(ScanAlertArguments).Err? then Err("ValidationError")
    else Ok(top)
  }

  /** As written, the scan with alerts fails exactly when it finds a
      high-risk district: the alert is built without its required title,
      message, coordinates, probability, weather data and precautions. */
  lemma AsWrittenFailsOnAnyHighRisk(ds: seq<District>, ps: seq<Probe>)
    requires |ds| == |ps|
    ensures ScanAndGenerateAlertsAsWritten(ds, ps).Err? <==> Collect(ds, ps) != []
  {
    assert "title" in FireAlertRequired && "title" !in ScanAlertArguments;
  }

  /** One district probed "High" is enough to make the as-written scan fail. */
  lemma AsWrittenCounterexample()
    ensures ScanAndGenerateAlertsAsWritten(
              [District("Kailali", 28.7, 80.6)],
              [Measured(Weather(38.0, 12.0, 4.0, 0.0), 180.0, "High")]).Err?
  {
    var ds := [District("Kailali", 28.7, 80.6)];
    var ps := [Measured(Weather(38.0, 12.0, 4.0, 0.0), 180.0, "High")];
    assert Entry(ds[0], ps[0]) in Collect(ds, ps);
    AsWrittenFailsOnAnyHighRisk(ds, ps);
  }

  /** The keyword arguments a well-formed alert passes: every required field,
      with the location split into latitude and longitude. */
  const CompleteAlertArguments: set<string> :=
    {"title", "message", "district", "latitude", "longitude", "risk_level",
     "probability", "weather_data", "precautions"}

  /** `scan_nepal_and_generate_alerts()` with complete alerts: every alert
      validates, so it returns the same list as `scan_nepal_only()` for the
      same district probes (scan.py lines 47-48, 59, 87-89). */
  function ScanAndGenerateAlerts(ds: seq<District>, ps: seq<Probe>): (r: Result<seq<HighRisk>, string>)
    requires |ds| == |ps|
    ensures r == Ok(ScanOnly(ds, ps))
  {
    var top := ScanOnly(ds, ps);
    if top != [] && ValidateAlert(CompleteAlertArguments).Err? then Err("ValidationError")
    else Ok(top)
  }
}
