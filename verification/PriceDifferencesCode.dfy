/** `buildDifferences` with its loops; maps are visited in any order. */
module PriceDifferencesCode {
  import opened PriceDifferences

  /** Lines 606-624: what one channel contributes. */
  method CompareChannel(current: Value, ch: Channel, model: string, field: string)
    returns (value: Value, reported: bool, differs: bool)
    ensures value == Shown(current, ch, model, field)
    ensures reported == Reports(ch.data, model, field) && differs == Flags(current, ch, model, field)
  {
    value, reported, differs := Nil, false, false;
    if Reports(ch.data, model, field) {
      value := ch.data[field][model];
      reported := true;
      if current != Nil && !ValuesEqual(current, value) {
        differs := true;
      } else if ValuesEqual(current, value) {
        value := SAME;
      }
    }
    if value == Nil && current == Nil { value := SAME; }
    if current == Nil && value != Nil && value != SAME { differs := true; }
  }

  function AnyReports(channels: seq<Channel>, model: string, field: string): bool {
    channels != [] && (AnyReports(channels[..|channels| - 1], model, field)
      || Reports(channels[|channels| - 1].data, model, field))
  }

  function AnyFlags(current: Value, channels: seq<Channel>, model: string, field: string): bool {
    channels != []
    && (AnyFlags(current, channels[..|channels| - 1], model, field)
       || Flags(current, channels[|channels| - 1], model, field))
  }

  lemma {:induction false} AnyMeansExists(current: Value, channels: seq<Channel>, model: string, field: string)
    ensures AnyReports(channels, model, field) <==> exists c | c in channels :: Reports(c.data, model, field)
    ensures AnyFlags(current, channels, model, field) <==> exists c | c in channels :: Flags(current, c, model, field)
  {
    if channels == [] {
    } else {
      AnyMeansExists(current, channels[..|channels| - 1], model, field);
      assert channels == channels[..|channels| - 1] + [channels[|channels| - 1]];
    }
  }

  /** Lines 595-652: one model and field. */
  method CompareField(local: Prices, channels: seq<Channel>, model: string, field: string)
    returns (wanted: bool, item: Item)
    ensures wanted == Included(local, channels, model, field) && item == RawItem(local, channels, model, field)
  {
    var current := Get(local, model, field);
    var upstreams: map<string, Value>, confidence: map<string, bool> := map[], map[];
    var hasUpstream, hasDifference := false, false;
    for i := 0 to |channels|
      invariant upstreams == Upstreams(current, channels[..i], model, field)
      invariant confidence == Confidence(channels[..i], model)
      invariant hasUpstream == AnyReports(channels[..i], model, field)
      invariant hasDifference == AnyFlags(current, channels[..i], model, field)
    {
      var value, reported, differs := CompareChannel(current, channels[i], model, field);
      assert channels[..i + 1][..i] == channels[..i];
      hasUpstream := hasUpstream || reported;
      hasDifference := hasDifference || differs;
      upstreams := upstreams[channels[i].name := value];
      confidence := confidence[channels[i].name := Confident(channels[i], model)];
    }
    assert channels[..|channels|] == channels;
    AnyMeansExists(current, channels, model, field);
    wanted := if current != Nil then hasDifference else hasUpstream;
    item := Item(current, upstreams, confidence);
  }

  method CompareModel(local: Prices, channels: seq<Channel>, model: string) returns (row: map<string, Item>)
    ensures row == RawRow(local, channels, model)
  {
    row := map[];
    for i := 0 to |FIELDS|
      invariant forall f | f in row :: f in FIELDS[..i] && row[f] == RawItem(local, channels, model, f)
      invariant forall f | f in FIELDS[..i] :: f in row <==> Included(local, channels, model, f)
    {
      assert FIELDS[..i + 1] == FIELDS[..i] + [FIELDS[i]];
      var wanted, item := CompareField(local, channels, model, FIELDS[i]);
      if wanted { row := row[FIELDS[i] := item]; }
    }
    assert FIELDS[..|FIELDS|] == FIELDS;
  }

  lemma RawIs(local: Prices, channels: seq<Channel>, report: Report)
    requires forall m | m in report :: m in AllModels(local, channels) && report[m] == RawRow(local, channels, m)
    requires forall m | m in AllModels(local, channels) :: m in report <==> RawRow(local, channels, m) != map[]
    ensures report == Raw(local, channels)
  {
  }

  method Compare(local: Prices, channels: seq<Channel>) returns (report: Report)
    ensures report == Raw(local, channels)
  {
    report := map[];
    var models := AllModels(local, channels);
    var todo := models;
    while todo != {}
      invariant todo <= models
      invariant forall m | m in report :: m in models - todo && report[m] == RawRow(local, channels, m)
      invariant forall m | m in models - todo :: m in report <==> RawRow(local, channels, m) != map[]
    {
      var m :| m in todo;
      todo := todo - {m};
      var row := CompareModel(local, channels, m);
      if row != map[] { report := report[m := row]; }
    }
    RawIs(local, channels, report);
  }

  method LoudInItem(item: Item, loud: set<string>) returns (r: set<string>)
    ensures r == loud + set c | c in item.upstreams && IsLoud(item.upstreams[c])
  {
    r := loud;
    var todo := item.upstreams.Keys;
    while todo != {}
      invariant todo <= item.upstreams.Keys
      invariant r == loud + set c | c in item.upstreams.Keys - todo && IsLoud(item.upstreams[c])
    {
      var c :| c in todo;
      todo := todo - {c};
      if IsLoud(item.upstreams[c]) { r := r + {c}; }
    }
  }

  ghost function LoudInRowSet(row: map<string, Item>, fields: set<string>): set<string>
    requires fields <= row.Keys
  {
    set f, c | f in fields && c in row[f].upstreams && IsLoud(row[f].upstreams[c]) :: c
  }

  method LoudInRow(row: map<string, Item>, loud: set<string>) returns (r: set<string>)
    ensures r == loud + LoudInRowSet(row, row.Keys)
  {
    r := loud;
    var todo := row.Keys;
    while todo != {}
      invariant todo <= row.Keys
      invariant r == loud + LoudInRowSet(row, row.Keys - todo)
    {
      var f :| f in todo;
      ghost var before := row.Keys - todo;
      todo := todo - {f};
      assert row.Keys - todo == before + {f};
      r := LoudInItem(row[f], r);
    }
  }

  ghost function LoudInReportSet(report: Report, models: set<string>): set<string>
    requires models <= report.Keys
  {
    set m, c | m in models && c in LoudInRowSet(report[m], report[m].Keys) :: c
  }

  lemma LoudSets(report: Report)
    ensures LoudInReportSet(report, report.Keys) == LoudChannels(report)
  {
    forall c | c in LoudChannels(report) ensures c in LoudInReportSet(report, report.Keys) {
      var m, f :| m in report && f in report[m] && c in report[m][f].upstreams && IsLoud(report[m][f].upstreams[c]);
      assert c in LoudInRowSet(report[m], report[m].Keys);
    }
  }

  /** Lines 656-665 */
  method FindLoud(report: Report) returns (loud: set<string>)
    ensures loud == LoudChannels(report)
  {
    loud := {};
    var todo := report.Keys;
    while todo != {}
      invariant todo <= report.Keys
      invariant loud == LoudInReportSet(report, report.Keys - todo)
    {
      var m :| m in todo;
      ghost var before := report.Keys - todo;
      todo := todo - {m};
      assert report.Keys - todo == before + {m};
      loud := LoudInRow(report[m], loud);
    }
    assert report.Keys - {} == report.Keys;
    LoudSets(report);
  }

  /** Lines 669-674 */
  method DropQuiet(item: Item, loud: set<string>) returns (r: Item)
    ensures r == PruneItem(item, loud)
  {
    var upstreams, confidence := item.upstreams, item.confidence;
    var todo := item.upstreams.Keys;
    while todo != {}
      invariant todo <= item.upstreams.Keys
      invariant upstreams == map c | c in item.upstreams && (c in loud || c in todo) :: item.upstreams[c]
      invariant confidence == map c | c in item.confidence
                && (c in loud || c in todo || c !in item.upstreams) :: item.confidence[c]
    {
      var c :| c in todo;
      todo := todo - {c};
      if c !in loud {
        upstreams := upstreams - {c};
        confidence := confidence - {c};
      }
    }
    r := Item(item.current, upstreams, confidence);
  }

  method PruneModel(row: map<string, Item>, loud: set<string>) returns (r: map<string, Item>)
    ensures r == PruneRow(row, loud)
  {
    r := row;
    var todo := row.Keys;
    while todo != {}
      invariant todo <= row.Keys && r.Keys <= row.Keys
      invariant forall f | f in todo :: f in r && r[f] == row[f]
      invariant forall f | f in row.Keys - todo :: f in r <==> Survives(PruneItem(row[f], loud))
      invariant forall f | f in r && f !in todo :: r[f] == PruneItem(row[f], loud)
    {
      var f :| f in todo;
      todo := todo - {f};
      var item := DropQuiet(row[f], loud);
      if Survives(item) { r := r[f := item]; } else { r := r - {f}; }
    }
  }

  lemma PruneIs(report: Report, loud: set<string>, r: Report)
    requires r.Keys <= report.Keys
    requires forall m | m in report :: m in r <==> PruneRow(report[m], loud) != map[]
    requires forall m | m in r :: r[m] == PruneRow(report[m], loud)
    ensures r == Prune(report, loud)
  {
  }

  /** Lines 667-693 */
  method PruneReport(report: Report, loud: set<string>) returns (r: Report)
    ensures r == Prune(report, loud)
  {
    r := report;
    var todo := report.Keys;
    while todo != {}
      invariant todo <= report.Keys && r.Keys <= report.Keys
      invariant forall m | m in todo :: m in r && r[m] == report[m]
      invariant forall m | m in report.Keys - todo :: m in r <==> PruneRow(report[m], loud) != map[]
      invariant forall m | m in r && m !in todo :: r[m] == PruneRow(report[m], loud)
    {
      var m :| m in todo;
      todo := todo - {m};
      var row := PruneModel(report[m], loud);
      if row == map[] { r := r - {m}; } else { r := r[m := row]; }
    }
    PruneIs(report, loud, r);
  }

  method BuildDifferences(local: Prices, channels: seq<Channel>) returns (report: Report)
    ensures report == Differences(local, channels)
  {
    var raw := Compare(local, channels);
    var loud := FindLoud(raw);
    report := PruneReport(raw, loud);
  }
}
