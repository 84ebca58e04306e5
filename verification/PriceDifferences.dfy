/** The price difference report of `buildDifferences` (controller/ratio_sync.go, lines 536-696).

    For every model and pricing field the local value is compared with what each upstream reports;
    then channels that differ nowhere, and items and models left without a difference, are
    pruned.  Numbers are modelled as reals. */
module PriceDifferences {

  /** A JSON value, normalized; `Nil` is also what a lookup of a missing value gives. */
  datatype Value = Nil | Num(num: real) | Str(str: string)

  const SAME := Str("same")
  const EPSILON := 0.000000001

  function NearlyEqual(a: real, b: real): bool {
    if a > b then a - b < EPSILON else b - a < EPSILON
  }

  function ValuesEqual(a: Value, b: Value): bool {
    if a.Num? && b.Num? then NearlyEqual(a.num, b.num) else a == b
  }

  const FIELDS := ["model_ratio", "completion_ratio", "cache_ratio", "create_cache_ratio", "image_ratio",
                   "audio_ratio", "audio_completion_ratio", "model_price", "billing_mode", "billing_expr"]

  /** Per field, the values by model. */
  type Prices = map<string, map<string, Value>>

  datatype Channel = Channel(name: string, data: Prices)

  predicate Reports(data: Prices, model: string, field: string) {
    field in data && model in data[field]
  }

  function Get(data: Prices, model: string, field: string): Value {
    if Reports(data, model, field) then data[field][model] else Nil
  }

  function ModelsIn(data: Prices): set<string> {
    set f, m | f in FIELDS && f in data && m in data[f] :: m
  }

  function AllModels(local: Prices, channels: seq<Channel>): set<string> {
    ModelsIn(local) + set c, m | c in channels && m in ModelsIn(c.data) :: m
  }

  // ---------- One model and field ----------

  /** What the report shows for a channel (lines 606-620). */
  function Render(local: Value, reported: bool, value: Value): Value {
    var shown := if reported then (if ValuesEqual(local, value) then SAME else value) else Nil;
    if shown == Nil && local == Nil then SAME else shown
  }

  function Shown(local: Value, ch: Channel, model: string, field: string): Value {
    Render(local, Reports(ch.data, model, field), Get(ch.data, model, field))
  }

  /** Whether a channel sets `hasDifference` (lines 612-624). */
  function Flags(local: Value, ch: Channel, model: string, field: string): bool {
    || (Reports(ch.data, model, field) && local != Nil && !ValuesEqual(local, Get(ch.data, model, field)))
    || (local == Nil && Shown(local, ch, model, field) != Nil && Shown(local, ch, model, field) != SAME)
  }

  /** Lines 560-591: a channel is trusted unless its ratios look like placeholders. */
  predicate Confident(ch: Channel, model: string) {
    var ratio, completion := Get(ch.data, model, "model_ratio"), Get(ch.data, model, "completion_ratio");
    !(Reports(ch.data, model, "model_ratio") && Reports(ch.data, model, "completion_ratio")
      && ratio.Num? && completion.Num? && NearlyEqual(ratio.num, 37.5) && NearlyEqual(completion.num, 1.0))
  }

  datatype Item = Item(current: Value, upstreams: map<string, Value>, confidence: map<string, bool>)

  function Upstreams(local: Value, channels: seq<Channel>, model: string, field: string): map<string, Value> {
    if channels == [] then map[]
    else
      var last := channels[|channels| - 1];
      Upstreams(local, channels[..|channels| - 1], model, field)[last.name := Shown(local, last, model, field)]
  }

  function Confidence(channels: seq<Channel>, model: string): map<string, bool> {
    if channels == [] then map[]
    else
      var last := channels[|channels| - 1];
      Confidence(channels[..|channels| - 1], model)[last.name := Confident(last, model)]
  }

  function RawItem(local: Prices, channels: seq<Channel>, model: string, field: string): Item {
    var current := Get(local, model, field);
    Item(current, Upstreams(current, channels, model, field), Confidence(channels, model))
  }

  /** Lines 631-641 */
  predicate Included(local: Prices, channels: seq<Channel>, model: string, field: string) {
    var current := Get(local, model, field);
    if current != Nil then exists c | c in channels :: Flags(current, c, model, field)
    else exists c | c in channels :: Reports(c.data, model, field)
  }

  // ---------- The report and its pruning ----------

  type Report = map<string, map<string, Item>>

  function RawRow(local: Prices, channels: seq<Channel>, model: string): map<string, Item> {
    map f | f in FIELDS && Included(local, channels, model, f) :: RawItem(local, channels, model, f)
  }

  function Raw(local: Prices, channels: seq<Channel>): Report {
    map m | m in AllModels(local, channels) && RawRow(local, channels, m) != map[] :: RawRow(local, channels, m)
  }

  predicate IsLoud(v: Value) {
    v != Nil && v != SAME
  }

  /** The channels with a difference somewhere (lines 656-665). */
  function LoudChannels(report: Report): set<string> {
    set m, f, c | m in report && f in report[m] && c in report[m][f].upstreams && IsLoud(report[m][f].upstreams[c]) :: c
  }

  function PruneItem(item: Item, loud: set<string>): Item {
    Item(item.current,
         map c | c in item.upstreams && c in loud :: item.upstreams[c],
         map c | c in item.confidence && (c in loud || c !in item.upstreams) :: item.confidence[c])
  }

  /** Lines 676-683: an item is dropped when nothing, or only "same", is left. */
  predicate Survives(item: Item) {
    exists c | c in item.upstreams :: item.upstreams[c] != SAME
  }

  function PruneRow(row: map<string, Item>, loud: set<string>): map<string, Item> {
    map f | f in row && Survives(PruneItem(row[f], loud)) :: PruneItem(row[f], loud)
  }

  function Prune(report: Report, loud: set<string>): Report {
    map m | m in report && PruneRow(report[m], loud) != map[] :: PruneRow(report[m], loud)
  }

  function Differences(local: Prices, channels: seq<Channel>): Report {
    Prune(Raw(local, channels), LoudChannels(Raw(local, channels)))
  }
}
