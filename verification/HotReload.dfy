/** Reload epochs, saved plugin states and the bounded history (core/src/config/hot_reload.rs:28-303). */
module HotReload {
  import opened Wrappers

  type Data(==, 0, !new)

  const ENGINE_CONFIG: string := "__engine_config__"
  const HISTORY_LIMIT: nat := 100

  datatype PluginState = PluginState(pluginName: string, pluginVersion: nat, data: Data, epoch: nat, formatVersion: nat)

  /** Error messages are reduced to whether there is one. */
  datatype ReloadResult = ReloadResult(
    pluginName: string, success: bool, oldVersion: nat, newVersion: nat, failed: bool, stateMigrated: bool, epoch: nat)

  datatype Ticket = Ticket(epoch: nat, previousEpoch: nat)

  /** The last entries of everything recorded. */
  function Latest(recorded: seq<ReloadResult>): (history: seq<ReloadResult>)
    ensures |history| <= HISTORY_LIMIT
  {
    if |recorded| <= HISTORY_LIMIT then recorded else recorded[|recorded| - HISTORY_LIMIT..]
  }

  /** A cast to `u32`. */
  function Low32(n: nat): nat {
    n % 0x1_0000_0000
  }

  /** The outcome entered for a ticket. */
  function Outcome(ticket: Ticket, success: bool, failed: bool): ReloadResult {
    ReloadResult(ENGINE_CONFIG, success, Low32(ticket.previousEpoch), Low32(ticket.epoch), failed, false, ticket.epoch)
  }

  class HotReloadManager {
    var epoch: nat
    var savedStates: map<string, PluginState>
    var history: seq<ReloadResult>

    /** Everything ever recorded, and the epochs of the tickets begun and completed, in order. */
    ghost var recorded: seq<ReloadResult>
    ghost var begun: seq<nat>
    ghost var completed: seq<nat>

    ghost predicate Valid()
      reads this
    {
      && history == Latest(recorded)
      && Increasing(begun) && (forall i :: 0 <= i < |begun| ==> begun[i] < epoch)
      && (forall name :: name in savedStates ==> savedStates[name].epoch < epoch)
    }

    constructor ()
      ensures Valid() && epoch == 1 && savedStates == map[] && recorded == [] && begun == completed == []
    {
      epoch, savedStates, history, recorded, begun, completed := 1, map[], [], [], [], [];
    }

    /** Returns the epoch before the increment. */
    method NextEpoch() returns (e: nat)
      requires Valid()
      modifies this`epoch
      ensures Valid() && e == old(epoch) && epoch == old(epoch) + 1
    {
      e := epoch;
      epoch := epoch + 1;
    }

    /** Nothing comes between the load and the increment here; `EpochMachine` has them apart. */
    method BeginConfigReload() returns (ticket: Ticket)
      requires Valid()
      modifies this`epoch, this`begun
      ensures Valid() && epoch == old(epoch) + 1
      ensures ticket == Ticket(old(epoch), old(epoch)) && begun == old(begun) + [ticket.epoch]
    {
      var previousEpoch := epoch;
      var e := NextEpoch();
      begun := begun + [e];
      return Ticket(e, previousEpoch);
    }

    method CompleteConfigReload(ticket: Ticket, success: bool, failed: bool) returns (result: ReloadResult)
      requires Valid()
      modifies this`history, this`recorded, this`completed
      ensures Valid() && result == Outcome(ticket, success, failed)
      ensures result == ReloadResult("__engine_config__", success, ticket.previousEpoch % 0x1_0000_0000,
                                     ticket.epoch % 0x1_0000_0000, failed, false, ticket.epoch)
      ensures recorded == old(recorded) + [result] && completed == old(completed) + [ticket.epoch]
    {
      result := ReloadResult(
        ENGINE_CONFIG, success, Low32(ticket.previousEpoch), Low32(ticket.epoch), failed, false, ticket.epoch);
      RecordReload(result);
      completed := completed + [ticket.epoch];
    }

    /** The history keeps the last hundred results. */
    method RecordReload(result: ReloadResult)
      requires Valid()
      modifies this`history, this`recorded
      ensures Valid() && recorded == old(recorded) + [result]
      ensures history == if |recorded| <= 100 then recorded else recorded[|recorded| - 100..]
    {
      history := history + [result];
      recorded := recorded + [result];
      if |history| > 100 {
        history := history[1..];
      }
    }

    /** The state is saved under the epoch it takes. */
    method SerializeState(name: string, version: nat, data: Data, formatVersion: nat)
      requires Valid()
      modifies this`epoch, this`savedStates
      ensures Valid() && epoch == old(epoch) + 1
      ensures savedStates == old(savedStates)[name := PluginState(name, version, data, old(epoch), formatVersion)]
    {
      var e := NextEpoch();
      savedStates := savedStates[name := PluginState(name, version, data, e, formatVersion)];
    }

    function StateForReload(name: string, maxEpoch: nat): Option<PluginState>
      reads this
    {
      if name !in savedStates then None
      else if savedStates[name].epoch > maxEpoch then None
      else if savedStates[name].formatVersion > 1 then None
      else Some(savedStates[name])
    }

    /**
     With new data the state is saved under an epoch after that of the reload. Without, the saved state is
     migrated whenever there is one in a supported format: in a run of complete calls the check against newer
     epochs never rejects it.
     */
    method ReloadPlugin(name: string, oldVersion: nat, newVersion: nat, data: Option<Data>)
      returns (result: ReloadResult)
      requires Valid()
      modifies this`epoch, this`savedStates
      ensures Valid() && result.epoch == old(epoch) && result.oldVersion == oldVersion
      ensures result.newVersion == newVersion
      ensures result.success == result.stateMigrated == !result.failed && result.pluginName == name
      ensures data.Some? ==>
                && result.success && epoch == old(epoch) + 2
                && savedStates ==
                     old(savedStates)[name := PluginState(name, newVersion, data.value, result.epoch + 1, 1)]
                && StateForReload(name, result.epoch).None?
      ensures data.None? ==> epoch == old(epoch) + 1 && savedStates == old(savedStates)
      ensures data.None? ==> (result.success <==> name in savedStates && savedStates[name].formatVersion <= 1)
    {
      var e := NextEpoch();
      var migrated, failed := true, false;
      if data.Some? {
        SerializeState(name, newVersion, data.value, 1);
      } else if StateForReload(name, e).None? {
        migrated, failed := false, true;
      }
      return ReloadResult(name, migrated || data.Some?, oldVersion, newVersion, failed, migrated, e);
    }

    method Rollback(name: string) returns (result: ReloadResult)
      requires Valid()
      modifies this`savedStates
      ensures Valid() && savedStates == old(savedStates) - {name}
      ensures var version := if name in old(savedStates) then old(savedStates)[name].pluginVersion else 0;
              result == ReloadResult(name, false, version, 0, true, false, epoch)
    {
      var oldVersion := if name in savedStates then savedStates[name].pluginVersion else 0;
      savedStates := savedStates - {name};
      return ReloadResult(name, false, oldVersion, 0, true, false, epoch);
    }

    method ClearState(name: string)
      requires Valid()
      modifies this`savedStates
      ensures Valid() && savedStates == old(savedStates) - {name}
    {
      savedStates := savedStates - {name};
    }
  }

  /**
   Under the latest epoch taken, or a later limit, a saved state is only withheld for its format: no state is newer.
   */
  lemma LatestLimitWithholdsNothing(m: HotReloadManager, name: string, maxEpoch: nat)
    requires m.Valid() && m.epoch <= maxEpoch + 1
    ensures m.StateForReload(name, maxEpoch)
         == if name in m.savedStates && m.savedStates[name].formatVersion <= 1 then Some(m.savedStates[name]) else None
  {
  }

  ghost predicate Increasing(epochs: seq<nat>) {
    forall i, j :: 0 <= i < j < |epochs| ==> epochs[i] < epochs[j]
  }
}
