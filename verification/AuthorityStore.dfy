/**
 The two-person store as its transactions run, row by row, against the transactions of the authority
 model.
 */
module AuthorityStore {
  import opened Common
  import opened Authority
  import opened AuthoritySafety

  class AdminAuthorityStore {
    const config: Config
    var profiles: map<nat, Profile>
    var changes: map<nat, Change>
    var applied: nat
    var now: int

    constructor (config: Config, w: World)
      ensures this.config == config && View() == w
    {
      this.config := config;
      profiles, changes, applied, now := w.profiles, w.changes, w.applied, w.now;
    }

    ghost function View(): World
      reads this
    {
      World(profiles, changes, applied, now)
    }

    method FindProfile(a: Account) returns (id: Option<nat>)
      requires UniqueAccounts(View())
      ensures id == ByAccount(View(), a)
    {
      var left := profiles.Keys;
      while left != {}
        invariant left <= profiles.Keys
        invariant forall i | i in profiles && i !in left :: profiles[i].account != a
        decreases |left|
      {
        var i :| i in left;
        if profiles[i].account == a { return Some(i); }
        left := left - {i};
      }
      return None;
    }

    method FindPending(a: Account, environment: string) returns (id: Option<nat>)
      requires OnePending(View())
      ensures id == PendingFor(View(), a, environment)
    {
      var left := changes.Keys;
      while left != {}
        invariant left <= changes.Keys
        invariant forall i | i in changes && i !in left :: !IsPending(changes[i], a, environment)
        decreases |left|
      {
        var i :| i in left;
        if IsPending(changes[i], a, environment) { return Some(i); }
        left := left - {i};
      }
      return None;
    }

    method Propose(actor: Option<Principal>, a: Account, k: Kind, environment: string, ticket: string, newId: nat)
      returns (ok: bool)
      requires Inv(config, View())
      modifies this
      ensures var r := Authority.Propose(config, old(View()), actor, a, k, environment, ticket, newId);
              ok == r.Some? && View() == r.GetOr(old(View()))
      ensures Inv(config, View())
    {
      ProposeKeeps(config, View(), DoPropose(actor, a, k, environment, ticket, newId));
      if actor.None? || environment != config.environment { return false; }
      var target := FindProfile(a);
      if k.Grant? && target.Some? && !profiles[target.value].active { return false; }
      if k.Revoke? && (target.None? || profiles[target.value].role != Admin) { return false; }
      var digest := config.digest(a, k, environment, ticket, actor.value);
      var pending := FindPending(a, environment);
      if pending.Some? { return changes[pending.value].digest == digest; }
      if newId in changes || !KindOk(k) { return false; }
      changes := changes[newId := Change(a, k, environment, digest, actor.value, Pending)];
      return true;
    }

    /** Writes an approved change to its target profile, where it can be applied. */
    method WriteTarget(row: Change, newId: nat) returns (ok: bool)
      requires UniqueAccounts(View())
      modifies this`profiles
      ensures var r := Written(old(View()), row, newId);
              ok == r.Some? && profiles == r.GetOr(old(profiles))
    {
      var target := FindProfile(row.account);
      if row.kind.Grant? {
        if target.Some? {
          if !profiles[target.value].active { return false; }
          profiles := profiles[target.value := Granted(profiles[target.value], row.account, row.kind.org)];
        } else {
          if newId in profiles { return false; }
          profiles := profiles[newId := Profile(row.account, None, Admin, row.kind.org, true, None)];
        }
      } else {
        if target.None? || profiles[target.value].role != Admin { return false; }
        profiles := profiles[target.value :=
          Updated(profiles[target.value], row.account, None, Write(Some(row.kind.resulting), None))];
      }
      return true;
    }

    method Approve(actor: Option<Principal>, id: nat, digest: string, newId: nat) returns (ok: bool)
      requires Inv(config, View())
      modifies this
      ensures var r := Authority.Approve(config, old(View()), actor, id, digest, newId);
              ok == r.Some? && View() == r.GetOr(old(View()))
      ensures Inv(config, View())
    {
      ApproveKeeps(config, View(), DoApprove(actor, id, digest, newId));
      if actor.None? || id !in changes || !changes[id].state.Pending? { return false; }
      var row := changes[id];
      if row.proposedBy == actor.value || row.digest != digest || row.environment != config.environment { return false; }
      if row.kind.Grant? && row.kind.expiresAt <= now { return false; }
      ok := WriteTarget(row, newId);
      if ok {
        changes := changes[id := row.(state := Applied(actor.value, applied))];
        applied := applied + 1;
      }
    }

    method Cancel(actor: Option<Principal>, id: nat) returns (ok: bool)
      requires Inv(config, View())
      modifies this
      ensures var r := Authority.Cancel(old(View()), actor, id);
              ok == r.Some? && View() == r.GetOr(old(View()))
      ensures Inv(config, View())
    {
      CancelKeeps(config, View(), DoCancel(actor, id));
      if actor.None? || id !in changes || !changes[id].state.Pending? { return false; }
      changes := changes[id := changes[id].(state := Cancelled(actor.value))];
      return true;
    }
  }
}
