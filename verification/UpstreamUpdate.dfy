/** Detecting and applying upstream model changes
    (controller/channel_upstream_update.go, lines 172-231, 356-403 and 802-850).

    A channel stores its models as comma-separated text and, as a cache, the models that the
    last detection found missing or stale.  Applying a selection edits the models, the ignore
    list and the cache, without asking the upstream again. */
module UpstreamUpdate {
  import opened Text
  import opened ModelNames

  /** What a detection depends on besides the channel: the upstream's models, the normalized
      model mapping, and regular-expression matching, which is left uninterpreted. */
  datatype Env = Env(upstream: Names, mapping: map<string, string>, re: (string, string) -> bool)

  const RULE_PREFIX := "regex:"

  predicate IsRule(entry: string) {
    RULE_PREFIX <= entry
  }

  /** An entry of the ignore list is a rule or a literal name. */
  predicate Hits(env: Env, entry: string, name: string) {
    if IsRule(entry) then env.re(TrimSpace(entry[|RULE_PREFIX|..]), name) else entry == name
  }

  predicate Ignores(env: Env, ignored: Names, name: string) {
    exists entry | entry in ignored :: Hits(env, entry, name)
  }

  function Wanted(env: Env, local: Names, ignored: Names): set<string> {
    set u | u in Normalize(env.upstream) && u !in local && u !in env.mapping.Values && !Ignores(env, ignored, u)
  }

  function Stale(env: Env, local: Names): set<string> {
    set m | m in local && m !in env.mapping.Keys && m !in Normalize(env.upstream)
  }

  /** What `collectPendingUpstreamModelChangesFromModels` computes. */
  function Detect(env: Env, local: Names, ignored: Names): (Names, Names) {
    var mine := Normalize(local);
    (Normalize(Keep(Normalize(env.upstream), Wanted(env, mine, Normalize(ignored)))),
     Normalize(Keep(mine, Stale(env, mine))))
  }

  /** The persisted part of a channel. */
  datatype Row = Row(models: string, ignored: Names, pendingAdd: Names, pendingRemove: Names, lastCheck: int)

  /** `Channel.GetModels` (model/channel.go, lines 289-294). */
  function ModelsOf(text: string): Names {
    if text == "" then [] else Split(Trim(Only(','), text), ',')
  }

  function Local(row: Row): Names {
    Normalize(ModelsOf(row.models))
  }

  datatype Selection = Selection(add: Names, ignore: Names, remove: Names)

  function AddOf(row: Row, sel: Selection): Names {
    Intersect(sel.add, Normalize(row.pendingAdd))
  }

  function IgnoreOf(row: Row, sel: Selection): Names {
    Intersect(sel.ignore, Normalize(row.pendingAdd))
  }

  function RemoveOf(row: Row, sel: Selection): Names {
    Subtract(Intersect(sel.remove, Normalize(row.pendingRemove)), AddOf(row, sel))
  }

  function NextModels(row: Row, sel: Selection): Names {
    ApplySelected(Local(row), AddOf(row, sel), RemoveOf(row, sel))
  }

  function NextIgnored(row: Row, sel: Selection): Names {
    var merged := Merged(row.ignored, IgnoreOf(row, sel));
    if AddOf(row, sel) != [] then Subtract(merged, AddOf(row, sel)) else merged
  }

  /** What `applyChannelUpstreamModelUpdates` stores. */
  function Applied(row: Row, sel: Selection, now: int): Row {
    Row(if NextModels(row, sel) == Local(row) then row.models else Join(NextModels(row, sel), ','),
        NextIgnored(row, sel),
        Subtract(Normalize(row.pendingAdd), AddOf(row, sel) + IgnoreOf(row, sel)),
        Subtract(Normalize(row.pendingRemove), RemoveOf(row, sel)),
        now)
  }

  /** What a successful `checkAndPersistChannelUpstreamModelUpdates` stores. */
  function Checked(env: Env, row: Row, auto: bool, now: int): Row {
    var (add, remove) := Detect(env, ModelsOf(row.models), row.ignored);
    if auto && add != [] then
      var merged := Merged(Local(row), add);
      Row(if |merged| > |Local(row)| then Join(merged, ',') else row.models, row.ignored, [], remove, now)
    else
      Row(row.models, row.ignored, add, remove, now)
  }

  /** The number of models that auto-sync reports as added. */
  function AutoAdded(env: Env, row: Row, auto: bool): int {
    var (add, _) := Detect(env, ModelsOf(row.models), row.ignored);
    if auto && add != [] then |Merged(Local(row), add)| - |Local(row)| else 0
  }

  /** The cache is what a detection would compute now. */
  predicate Fresh(env: Env, row: Row) {
    Detect(env, ModelsOf(row.models), row.ignored) == (row.pendingAdd, row.pendingRemove)
  }
}

/** The methods of the source, with their loops and updates. */
module UpstreamUpdateCode {
  import opened Text
  import opened ModelNames
  import opened UpstreamUpdate

  /** `collectPendingUpstreamModelChangesFromModels` */
  method CollectPending(env: Env, local: Names, ignored: Names) returns (pendingAdd: Names, pendingRemove: Names)
    ensures (pendingAdd, pendingRemove) == Detect(env, local, ignored)
  {
    var mine := Normalize(local);
    var theirs := Normalize(env.upstream);
    var entries := Normalize(ignored);
    var localSet := ToSet(mine);
    var upstreamSet := ToSet(theirs);
    var sources: set<string>, targets: set<string> := {}, {};
    var todo := env.mapping.Keys;
    while todo != {}
      invariant todo <= env.mapping.Keys
      invariant sources == env.mapping.Keys - todo
      invariant targets == set s | s in sources :: env.mapping[s]
    {
      var source :| source in todo;
      targets := targets + {env.mapping[source]};
      sources := sources + {source};
      todo := todo - {source};
    }
    assert targets == env.mapping.Values;
    var covered := localSet + targets;
    var adds: Names := [];
    ghost var wanted := Wanted(env, mine, entries);
    for i := 0 to |theirs|
      invariant adds == Keep(theirs[..i], wanted)
    {
      assert theirs[..i + 1][..i] == theirs[..i];
      assert theirs[i] in wanted <==> theirs[i] !in covered && !Ignores(env, entries, theirs[i]);
      if theirs[i] !in covered && !Ignores(env, entries, theirs[i]) {
        adds := adds + [theirs[i]];
      }
    }
    var removes: Names := [];
    ghost var stale := Stale(env, mine);
    for i := 0 to |mine|
      invariant removes == Keep(mine[..i], stale)
    {
      assert mine[..i + 1][..i] == mine[..i];
      if mine[i] !in sources && mine[i] !in upstreamSet {
        removes := removes + [mine[i]];
      }
    }
    assert theirs[..|theirs|] == theirs && mine[..|mine|] == mine;
    return Normalize(adds), Normalize(removes);
  }

  datatype Fetched = Models(names: Names) | FetchError

  /** A channel as the handlers update it; `row` is what the database holds. */
  class Channel {
    var row: Row
    var autoSync: bool

    constructor (row: Row, autoSync: bool)
      ensures this.row == row && this.autoSync == autoSync
    {
      this.row, this.autoSync := row, autoSync;
    }

    /** `checkAndPersistChannelUpstreamModelUpdates`; `saved` says whether the database accepts
        the write, and `abilities` whether the abilities can be updated afterwards.  Nothing is
        stored when it does not, nor within the minimum interval of the last check unless forced;
        after a failed fetch only the time of the check is. */
    method CheckAndPersist(env: Env, fetched: Fetched, force: bool, allowAuto: bool, minInterval: int, now: int,
                           saved: bool, abilities: bool)
      returns (changed: bool, autoAdded: nat, ok: bool)
      requires fetched.Models? ==> env.upstream == fetched.names
      modifies this`row
      ensures !saved ==> row == old(row)
      ensures saved ==>
                row == if !force && old(row).lastCheck > 0 && now - old(row).lastCheck < minInterval then old(row)
                       else if fetched.FetchError? then old(row).(lastCheck := now)
                       else Checked(env, old(row), allowAuto && autoSync, now)
      ensures row.ignored == old(row).ignored
      ensures var early := !force && old(row).lastCheck > 0 && now - old(row).lastCheck < minInterval;
              && (ok <==> early || (fetched.Models? && saved && (changed ==> abilities)))
              && autoAdded == (if early || fetched.FetchError? then 0
                               else AutoAdded(env, old(row), allowAuto && autoSync))
              && (changed <==> saved && autoAdded > 0)
              && row.lastCheck == (if saved && !early then now else old(row).lastCheck)
    {
      if !force && row.lastCheck > 0 && now - row.lastCheck < minInterval {
        return false, 0, true;
      }
      if fetched.FetchError? {
        if saved { row := row.(lastCheck := now); }
        return false, 0, false;
      }
      var add, remove := CollectPending(env, ModelsOf(row.models), row.ignored);
      var next := row.(lastCheck := now);
      changed, autoAdded := false, 0;
      if allowAuto && autoSync && |add| > 0 {
        var origin := Normalize(ModelsOf(row.models));
        var merged := Merge(origin, add);
        NormalizeClean(ModelsOf(row.models));
        NormalizeFixed(origin);
        if |merged| > |origin| {
          next := next.(models := Join(merged, ','));
          autoAdded := |merged| - |origin|;
          changed := true;
        }
        next := next.(pendingAdd := []);
      } else {
        next := next.(pendingAdd := add);
      }
      next := next.(pendingRemove := remove);
      if !saved {
        return false, autoAdded, false;
      }
      row := next;
      if changed && !abilities {
        return true, autoAdded, false;
      }
      return changed, autoAdded, true;
    }

    /** `applyChannelUpstreamModelUpdates` */
    method Apply(sel: Selection, now: int, saved: bool, abilities: bool)
      returns (added: Names, removed: Names, remaining: Names, remainingRemove: Names, changed: bool, ok: bool)
      modifies this`row
      ensures row == if saved then Applied(old(row), sel, now) else old(row)
      ensures saved ==> row.lastCheck == now
      ensures saved ==> added == AddOf(old(row), sel) && removed == RemoveOf(old(row), sel)
                        && remaining == row.pendingAdd && remainingRemove == row.pendingRemove
                        && changed == (NextModels(old(row), sel) != Local(old(row)))
      ensures !saved ==> added == removed == remaining == remainingRemove == [] && !changed
      ensures ok <==> saved && (changed ==> abilities)
    {
      var pendingAdd, pendingRemove := Normalize(row.pendingAdd), Normalize(row.pendingRemove);
      added := Intersect(sel.add, pendingAdd);
      var ignore := Intersect(sel.ignore, pendingAdd);
      removed := Intersect(sel.remove, pendingRemove);
      NormalizeClean(row.pendingAdd);
      NormalizeFixed(pendingAdd);
      removed := Subtract(removed, added);
      var origin := Normalize(ModelsOf(row.models));
      var next := ApplySelected(origin, added, removed);
      changed := origin != next;
      var models := if changed then Join(next, ',') else row.models;
      var ignored := Merge(row.ignored, ignore);
      if |added| > 0 {
        ignored := Subtract(ignored, added);
      }
      remaining := Subtract(pendingAdd, added + ignore);
      remainingRemove := Subtract(pendingRemove, removed);
      if !saved {
        return [], [], [], [], false, false;
      }
      row := Row(models, ignored, remaining, remainingRemove, now);
      ok := !changed || abilities;
    }
  }
}
