module PriceDifferencesProofs {
  import opened PriceDifferences

  ghost predicate DistinctNames(channels: seq<Channel>) {
    forall i, j | 0 <= i < j < |channels| :: channels[i].name != channels[j].name
  }

  /** No reported value is null or the string that the report uses as a marker. */
  ghost predicate Plain(data: Prices) {
    forall f, m | f in data && m in data[f] :: data[f][m] != Nil && data[f][m] != SAME
  }

  ghost predicate PlainInput(local: Prices, channels: seq<Channel>) {
    Plain(local) && DistinctNames(channels) && forall i | 0 <= i < |channels| :: Plain(channels[i].data)
  }

  /** Two numbers at least a billionth apart, two different strings, or values of different kinds. */
  predicate Apart(a: Value, b: Value) {
    if a.Num? && b.Num? then a.num - b.num >= 0.000000001 || b.num - a.num >= 0.000000001
    else if a.Str? && b.Str? then a.str != b.str
    else !(a.Nil? && b.Nil?)
  }

  /** The channel reports a value, and it is not the local one. */
  predicate Disagrees(local: Prices, ch: Channel, model: string, field: string) {
    Reports(ch.data, model, field) && Apart(Get(local, model, field), Get(ch.data, model, field))
  }

  // ---------- An item ----------

  lemma {:induction false} ItemChannels(local: Value, channels: seq<Channel>, model: string, field: string, i: nat)
    requires DistinctNames(channels) && i < |channels|
    ensures var name := channels[i].name;
            && name in Upstreams(local, channels, model, field)
            && Upstreams(local, channels, model, field)[name] == Shown(local, channels[i], model, field)
            && name in Confidence(channels, model) && Confidence(channels, model)[name] == Confident(channels[i], model)
  {
    if i < |channels| - 1 {
      ItemChannels(local, channels[..|channels| - 1], model, field, i);
    }
  }

  lemma {:induction false} ItemKeys(local: Value, channels: seq<Channel>, model: string, field: string, name: string)
    ensures name in Upstreams(local, channels, model, field)
       <==> exists i :: 0 <= i < |channels| && channels[i].name == name
    ensures name in Upstreams(local, channels, model, field) <==> name in Confidence(channels, model)
  {
    if channels == [] {
    } else {
      var rest := channels[..|channels| - 1];
      ItemKeys(local, rest, model, field, name);
      if exists i :: 0 <= i < |channels| && channels[i].name == name {
        var i :| 0 <= i < |channels| && channels[i].name == name;
        assert i < |rest| ==> rest[i].name == name;
      }
      if exists i :: 0 <= i < |rest| && rest[i].name == name {
        var i :| 0 <= i < |rest| && rest[i].name == name;
        assert channels[i].name == name;
      }
    }
  }

  // ---------- The report before and after pruning ----------

  ghost predicate InReport(report: Report, model: string, field: string) {
    model in report && field in report[model]
  }

  lemma Reporter(local: Prices, channels: seq<Channel>, model: string, field: string) returns (c: Channel)
    requires Included(local, channels, model, field)
    ensures c in channels && Reports(c.data, model, field)
  {
    var current := Get(local, model, field);
    if current != Nil {
      c :| c in channels && Flags(current, c, model, field);
    } else {
      c :| c in channels && Reports(c.data, model, field);
    }
  }

  lemma RawEntryAny(local: Prices, channels: seq<Channel>, model: string, field: string)
    ensures var raw := Raw(local, channels);
            && (InReport(raw, model, field) <==> field in FIELDS && Included(local, channels, model, field))
            && (InReport(raw, model, field) ==> raw[model][field] == RawItem(local, channels, model, field))
  {
    if field in FIELDS && Included(local, channels, model, field) {
      var c := Reporter(local, channels, model, field);
      assert model in ModelsIn(c.data);
      assert field in RawRow(local, channels, model);
    }
  }

  lemma PruneEntry(report: Report, loud: set<string>, m: string, f: string)
    ensures InReport(Prune(report, loud), m, f) <==> InReport(report, m, f) && Survives(PruneItem(report[m][f], loud))
    ensures InReport(Prune(report, loud), m, f) ==> Prune(report, loud)[m][f] == PruneItem(report[m][f], loud)
  {
    if InReport(report, m, f) && Survives(PruneItem(report[m][f], loud)) {
      assert f in PruneRow(report[m], loud);
    }
  }

  // ---------- The report for any values ----------

  /** The channel disagrees, with a value that is neither null nor the marker. */
  predicate Differs(local: Prices, ch: Channel, model: string, field: string) {
    Disagrees(local, ch, model, field) && IsLoud(Get(ch.data, model, field))
  }

  /** The channels that differ from the local prices somewhere. */
  ghost function Differing(local: Prices, channels: seq<Channel>): set<string> {
    set c | c in channels && (exists m, f :: f in FIELDS && Differs(local, c, m, f)) :: c.name
  }

  /** The channel has something to show: a value of its own that is not the marker, or none where
      there is a local one. */
  predicate Shows(local: Prices, ch: Channel, model: string, field: string) {
    || (Disagrees(local, ch, model, field) && Get(ch.data, model, field) != SAME)
    || (!Reports(ch.data, model, field) && Get(local, model, field) != Nil)
  }

  lemma ShowsMeans(local: Prices, ch: Channel, model: string, field: string)
    ensures Shown(Get(local, model, field), ch, model, field) != SAME <==> Shows(local, ch, model, field)
    ensures IsLoud(Shown(Get(local, model, field), ch, model, field)) <==> Differs(local, ch, model, field)
  {
  }

  lemma LoudDiffers(local: Prices, channels: seq<Channel>, name: string)
    requires DistinctNames(channels) && name in LoudChannels(Raw(local, channels))
    ensures name in Differing(local, channels)
  {
    var raw: Report := Raw(local, channels);
    var m: string, f: string :| m in raw && f in raw[m] && name in raw[m][f].upstreams
      && IsLoud(raw[m][f].upstreams[name]);
    RawEntryAny(local, channels, m, f);
    ItemKeys(Get(local, m, f), channels, m, f, name);
    var i :| 0 <= i < |channels| && channels[i].name == name;
    ItemChannels(Get(local, m, f), channels, m, f, i);
    ShowsMeans(local, channels[i], m, f);
    assert channels[i] in channels && Differs(local, channels[i], m, f);
  }

  lemma DifferingIsLoud(local: Prices, channels: seq<Channel>, i: nat, m: string, f: string)
    requires DistinctNames(channels) && i < |channels| && f in FIELDS && Differs(local, channels[i], m, f)
    ensures channels[i].name in LoudChannels(Raw(local, channels))
  {
    assert channels[i] in channels;
    DisagreeingIsIncluded(local, channels, m, f, {});
    RawEntryAny(local, channels, m, f);
    ItemChannels(Get(local, m, f), channels, m, f, i);
    ShowsMeans(local, channels[i], m, f);
  }

  /** Whatever the values, the channels that are kept are those that differ somewhere. */
  lemma LoudAreDiffering(local: Prices, channels: seq<Channel>)
    requires DistinctNames(channels)
    ensures LoudChannels(Raw(local, channels)) == Differing(local, channels)
  {
    forall name | name in LoudChannels(Raw(local, channels)) ensures name in Differing(local, channels) {
      LoudDiffers(local, channels, name);
    }
    forall name | name in Differing(local, channels) ensures name in LoudChannels(Raw(local, channels)) {
      var c :| c in channels && (exists m, f :: f in FIELDS && Differs(local, c, m, f)) && c.name == name;
      var m, f :| f in FIELDS && Differs(local, c, m, f);
      var i :| 0 <= i < |channels| && channels[i] == c;
      DifferingIsLoud(local, channels, i, m, f);
    }
  }

  /** Some channel that differs somewhere has something to show for the model and field. */
  ghost predicate SomeoneShows(local: Prices, channels: seq<Channel>, model: string, field: string) {
    exists i | 0 <= i < |channels| ::
      channels[i].name in Differing(local, channels) && Shows(local, channels[i], model, field)
  }

  /** For any values at all: the report lists a model and field exactly when some upstream disagrees
      about it and some channel that differs somewhere has something to show there. */
  lemma ReportOfAnyValues(local: Prices, channels: seq<Channel>, model: string, field: string)
    requires DistinctNames(channels)
    ensures InReport(Differences(local, channels), model, field)
       <==> && field in FIELDS
            && (exists c | c in channels :: Disagrees(local, c, model, field))
            && SomeoneShows(local, channels, model, field)
  {
    var raw := Raw(local, channels);
    var loud := LoudChannels(raw);
    LoudAreDiffering(local, channels);
    PruneEntry(raw, loud, model, field);
    RawEntryAny(local, channels, model, field);
    SurvivesMeans(Get(local, model, field), channels, model, field, loud);
    DisagreeingIsIncluded(local, channels, model, field, loud);
    SomeoneShowsMeans(local, channels, model, field, loud);
  }

  lemma SomeoneShowsMeans(local: Prices, channels: seq<Channel>, model: string, field: string, loud: set<string>)
    requires loud == Differing(local, channels)
    ensures SomeoneShows(local, channels, model, field)
       <==> exists i | 0 <= i < |channels| ::
              channels[i].name in loud && Shown(Get(local, model, field), channels[i], model, field) != SAME
  {
    forall i | 0 <= i < |channels|
      ensures Shown(Get(local, model, field), channels[i], model, field) != SAME
         <==> Shows(local, channels[i], model, field)
    {
      ShowsMeans(local, channels[i], model, field);
    }
  }

  /** A disagreement is overlooked exactly when no channel that differs somewhere has anything to
      show for it; so never if a channel differs there, with a value that is not null and not the
      marker. */
  lemma OverlookedExactly(local: Prices, channels: seq<Channel>, model: string, field: string)
    requires DistinctNames(channels) && field in FIELDS && exists c | c in channels :: Disagrees(local, c, model, field)
    ensures !InReport(Differences(local, channels), model, field)
       <==> forall i | 0 <= i < |channels| && channels[i].name in Differing(local, channels) ::
              !Shows(local, channels[i], model, field)
    ensures (exists i | 0 <= i < |channels| :: Differs(local, channels[i], model, field)) ==>
            InReport(Differences(local, channels), model, field)
  {
    ReportOfAnyValues(local, channels, model, field);
    if i :| 0 <= i < |channels| && Differs(local, channels[i], model, field) {
      assert channels[i] in channels && channels[i].name in Differing(local, channels)
             && Shows(local, channels[i], model, field);
    }
  }

  lemma SurvivesMeans(local: Value, channels: seq<Channel>, model: string, field: string, loud: set<string>)
    requires DistinctNames(channels)
    ensures var item := Item(local, Upstreams(local, channels, model, field), Confidence(channels, model));
            (Survives(PruneItem(item, loud))
             <==> exists i | 0 <= i < |channels| ::
                    channels[i].name in loud && Shown(local, channels[i], model, field) != SAME)
  {
    var item := PruneItem(Item(local, Upstreams(local, channels, model, field), Confidence(channels, model)), loud);
    if Survives(item) {
      var name :| name in item.upstreams && item.upstreams[name] != SAME;
      ItemKeys(local, channels, model, field, name);
      var i :| 0 <= i < |channels| && channels[i].name == name;
      ItemChannels(local, channels, model, field, i);
      assert channels[i].name in loud && Shown(local, channels[i], model, field) != SAME;
    }
    if i :| 0 <= i < |channels| && channels[i].name in loud && Shown(local, channels[i], model, field) != SAME {
      ItemChannels(local, channels, model, field, i);
      assert channels[i].name in item.upstreams;
    }
  }

  lemma DisagreeingIsIncluded(local: Prices, channels: seq<Channel>, model: string, field: string, loud: set<string>)
    ensures (exists c | c in channels :: Disagrees(local, c, model, field)) ==> Included(local, channels, model, field)
    ensures Included(local, channels, model, field)
            && (exists i | 0 <= i < |channels| ::
                  channels[i].name in loud && Shown(Get(local, model, field), channels[i], model, field) != SAME)
            ==> exists c | c in channels :: Disagrees(local, c, model, field)
  {
    var current := Get(local, model, field);
    if c :| c in channels && Disagrees(local, c, model, field) {
      assert current != Nil ==> Flags(current, c, model, field);
    }
    if Included(local, channels, model, field) {
      if current != Nil {
        var c :| c in channels && Flags(current, c, model, field);
        assert Disagrees(local, c, model, field);
      } else if i :| 0 <= i < |channels| && Shown(current, channels[i], model, field) != SAME {
        assert channels[i] in channels && Disagrees(local, channels[i], model, field);
      }
    }
  }

  // ---------- The report for plain values ----------

  predicate PricingField(field: string) {
    || field == "model_ratio" || field == "completion_ratio" || field == "cache_ratio" || field == "create_cache_ratio"
    || field == "image_ratio" || field == "audio_ratio" || field == "audio_completion_ratio" || field == "model_price"
    || field == "billing_mode" || field == "billing_expr"
  }

  lemma FieldsAre(field: string)
    ensures field in FIELDS <==> PricingField(field)
  {
  }

  /** The channel has a value where there is no local one, or one that is apart from the local one. */
  predicate News(local: Prices, c: Channel, model: string, field: string) {
    && field in c.data && model in c.data[field]
    && (field in local && model in local[field] ==> Apart(local[field][model], c.data[field][model]))
  }

  lemma NewsMeans(local: Prices, c: Channel, model: string, field: string)
    requires Plain(c.data)
    ensures News(local, c, model, field) <==> Disagrees(local, c, model, field)
    ensures News(local, c, model, field) ==> Differs(local, c, model, field)
  {
  }

  /** The report lists a model and field exactly when it is one of the ten fields and some upstream
      reports a value for it where there is no local one, or one that differs from the local one. */
  lemma ReportIsExact(local: Prices, channels: seq<Channel>, model: string, field: string)
    requires PlainInput(local, channels)
    ensures InReport(Differences(local, channels), model, field)
       <==> PricingField(field) && exists i | 0 <= i < |channels| :: News(local, channels[i], model, field)
  {
    FieldsAre(field);
    forall i | 0 <= i < |channels|
      ensures News(local, channels[i], model, field) <==> Disagrees(local, channels[i], model, field)
      ensures News(local, channels[i], model, field) ==> Differs(local, channels[i], model, field)
    {
      NewsMeans(local, channels[i], model, field);
    }
    ReportOfAnyValues(local, channels, model, field);
    if i :| field in FIELDS && 0 <= i < |channels| && News(local, channels[i], model, field) {
      assert channels[i] in channels && Differs(local, channels[i], model, field);
      OverlookedExactly(local, channels, model, field);
    }
  }

  /** In an item of the raw report, pruning to channels of the run leaves just those. */
  lemma PrunedKeys(local: Value, channels: seq<Channel>, model: string, field: string, loud: set<string>, item: Item)
    requires item == PruneItem(Item(local, Upstreams(local, channels, model, field), Confidence(channels, model)), loud)
    requires forall name | name in loud :: exists i :: 0 <= i < |channels| && channels[i].name == name
    ensures item.upstreams.Keys == loud && item.confidence.Keys == loud
  {
    forall name ensures name in item.upstreams <==> name in loud
      ensures name in item.confidence <==> name in loud
    {
      ItemKeys(local, channels, model, field, name);
    }
  }

  lemma DifferingAreChannels(local: Prices, channels: seq<Channel>, name: string)
    requires name in Differing(local, channels)
    ensures exists i :: 0 <= i < |channels| && channels[i].name == name
  {
    var c :| c in channels && c.name == name;
    var i :| 0 <= i < |channels| && channels[i] == c;
  }

  /** The channel reports a model ratio of 37.5 and a completion ratio of 1, up to a billionth. */
  predicate Placeholders(ch: Channel, model: string) {
    && "model_ratio" in ch.data && model in ch.data["model_ratio"]
    && "completion_ratio" in ch.data && model in ch.data["completion_ratio"]
    && !Apart(ch.data["model_ratio"][model], Num(37.5)) && !Apart(ch.data["completion_ratio"][model], Num(1.0))
  }

  lemma ConfidentMeans(ch: Channel, model: string)
    ensures Confident(ch, model) <==> !Placeholders(ch, model)
  {
  }

  /** An item in the report lists exactly the channels that differ somewhere, in both its maps, and
      shows for each its own value if it disagrees here, "same" if it agrees or if neither side
      has a value, and nothing if only the channel has none. */
  lemma ItemIsExact(local: Prices, channels: seq<Channel>, model: string, field: string, i: nat)
    requires PlainInput(local, channels) && InReport(Differences(local, channels), model, field) && i < |channels|
    ensures var item := Differences(local, channels)[model][field];
            var c := channels[i];
            && item.current == Get(local, model, field)
            && item.upstreams.Keys == item.confidence.Keys == Differing(local, channels)
            && (c.name in Differing(local, channels) ==>
                  && c.name in item.upstreams && c.name in item.confidence
                  && item.upstreams[c.name] ==
                       (if Disagrees(local, c, model, field) then Get(c.data, model, field)
                        else if Reports(c.data, model, field) || !Reports(local, model, field) then SAME
                        else Nil)
                  && item.confidence[c.name] == !Placeholders(c, model))
  {
    var raw := Raw(local, channels);
    var loud := LoudChannels(raw);
    var current := Get(local, model, field);
    var item := Differences(local, channels)[model][field];
    PruneEntry(raw, loud, model, field);
    RawEntryAny(local, channels, model, field);
    LoudAreDiffering(local, channels);
    forall name | name in loud ensures exists k :: 0 <= k < |channels| && channels[k].name == name {
      DifferingAreChannels(local, channels, name);
    }
    PrunedKeys(current, channels, model, field, loud, item);
    ItemChannels(current, channels, model, field, i);
    ShownIs(local, channels[i], model, field);
    ConfidentMeans(channels[i], model);
  }

  lemma ShownIs(local: Prices, c: Channel, model: string, field: string)
    requires Plain(local)
    ensures Shown(Get(local, model, field), c, model, field)
         == if Disagrees(local, c, model, field) then
              if Get(c.data, model, field) == Nil && !Reports(local, model, field) then SAME
              else Get(c.data, model, field)
            else if Reports(c.data, model, field) || !Reports(local, model, field) then SAME
            else Nil
  {
  }

  // ---------- What null and "same" do ----------

  /** A single channel that differs nowhere is not reported, even where it disagrees. */
  lemma QuietChannel(local: Prices, ch: Channel, model: string, field: string)
    requires field in FIELDS && Disagrees(local, ch, model, field) && forall m, f :: !Differs(local, ch, m, f)
    ensures !InReport(Differences(local, [ch]), model, field)
  {
    assert ch in [ch];
    OverlookedExactly(local, [ch], model, field);
  }

  const ONE_PRICE: Prices := map["model_ratio" := map["m" := Num(1.0)]]
  const NULLED := Channel("a", map["model_ratio" := map["m" := Nil]])

  /** An upstream that reports null where there is a local price disagrees, but is not reported. */
  lemma NullIsOverlooked()
    ensures Disagrees(ONE_PRICE, NULLED, "m", "model_ratio")
    ensures !InReport(Differences(ONE_PRICE, [NULLED]), "m", "model_ratio")
  {
    QuietChannel(ONE_PRICE, NULLED, "m", "model_ratio");
  }

  const MARKED := Channel("a", map["billing_mode" := map["m" := SAME]])

  /** An upstream whose value is the string "same" disagrees with a missing local value, but is not
      reported. */
  lemma SameIsOverlooked()
    ensures Disagrees(map[], MARKED, "m", "billing_mode")
    ensures !InReport(Differences(map[], [MARKED]), "m", "billing_mode")
  {
    QuietChannel(map[], MARKED, "m", "billing_mode");
  }
}
