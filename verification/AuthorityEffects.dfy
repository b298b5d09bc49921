/**
 What each transaction on the authority tables does: exactly when it is accepted, and the rows before
 and after it, column by column.
 */
module AuthorityEffects {
  import opened Common
  import opened Authority
  import opened AuthoritySafety

  predicate Owns(w: World, a: Account, id: nat) { id in w.profiles && w.profiles[id].account == a }

  predicate Unowned(w: World, a: Account) { forall id | id in w.profiles :: w.profiles[id].account != a }

  predicate Linked(w: World, x: Wallet, id: nat) { id in w.profiles && w.profiles[id].wallet == Some(x) }

  predicate Unlinked(w: World, x: Wallet) { forall id | id in w.profiles :: w.profiles[id].wallet != Some(x) }

  /** Only this profile was written, and no change. */
  predicate WroteProfile(w: World, w': World, id: nat) {
    && w'.profiles.Keys == w.profiles.Keys + {id}
    && (forall j | j in w.profiles && j != id :: w'.profiles[j] == w.profiles[j])
    && w'.changes == w.changes && w'.applied == w.applied && w'.now == w.now
  }

  lemma OwnerFound(w: World, a: Account)
    requires UniqueAccounts(w)
    ensures forall id: nat | Owns(w, a, id) :: ByAccount(w, a) == Some(id)
    ensures Unowned(w, a) <==> ByAccount(w, a).None?
    ensures ByAccount(w, a).Some? ==> Owns(w, a, ByAccount(w, a).value)
  {
  }

  lemma LinkFound(w: World, x: Wallet)
    requires UniqueWallets(w)
    ensures forall id: nat | Linked(w, x, id) :: ByWallet(w, x) == Some(id)
    ensures Unlinked(w, x) <==> ByWallet(w, x).None?
    ensures ByWallet(w, x).Some? ==> Linked(w, x, ByWallet(w, x).value)
  {
  }

  // ---------------------------------------------------------------- two-person changes

  /** A proposal is accepted by a named principal of this environment, for a target it can apply to. */
  ghost predicate Proposable(c: Config, w: World, a: Account, k: Kind, environment: string) {
    && environment == c.environment
    && (k.Grant? ==> forall id | Owns(w, a, id) :: w.profiles[id].active)
    && (k.Revoke? ==> exists id :: Owns(w, a, id) && w.profiles[id].role == Admin)
  }

  ghost predicate Awaits(w: World, a: Account, environment: string, id: nat) {
    && id in w.changes && w.changes[id].account == a && w.changes[id].environment == environment
    && w.changes[id].state == Pending
  }

  lemma PendingFound(w: World, a: Account, environment: string)
    requires OnePending(w)
    ensures forall id: nat | Awaits(w, a, environment, id) :: PendingFor(w, a, environment) == Some(id)
    ensures PendingFor(w, a, environment).Some? ==> Awaits(w, a, environment, PendingFor(w, a, environment).value)
  {
    forall id: nat | Awaits(w, a, environment, id) ensures PendingFor(w, a, environment) == Some(id) {
      assert IsPending(w.changes[id], a, environment);
    }
  }

  /**
   A proposal leaves one pending change of the account in the environment, with the digest of what was
   proposed: the one that was there, if it has that digest, or a new one of the proposer. It is refused
   for another pending change, an unnamed actor, a wrong environment, or a target it cannot apply to.
   */
  lemma ProposesExactly(c: Config, w: World, actor: Option<Principal>, a: Account, k: Kind, environment: string,
                        ticket: string, newId: nat)
    requires Inv(c, w)
    ensures var r := Propose(c, w, actor, a, k, environment, ticket, newId);
            && (r.Some? <==> && actor.Some? && Proposable(c, w, a, k, environment)
                             && (forall id | Awaits(w, a, environment, id) ::
                                   w.changes[id].digest == c.digest(a, k, environment, ticket, actor.value))
                             && ((forall id :: !Awaits(w, a, environment, id)) ==>
                                   && newId !in w.changes
                                   && (k.Revoke? ==> k.resulting == Buyer || k.resulting == Supplier)))
            && (r.Some? && (exists id :: Awaits(w, a, environment, id)) ==> r.value == w)
            && (r.Some? && (forall id :: !Awaits(w, a, environment, id)) ==>
                  r.value == w.(changes := w.changes[newId := Change(
                    account := a, kind := k, environment := environment,
                    digest := c.digest(a, k, environment, ticket, actor.value), proposedBy := actor.value, state := Pending)]))
  {
    OwnerFound(w, a);
    PendingFound(w, a, environment);
  }

  /** The approval is by a second, named principal who names the digest, in time and in this environment. */
  ghost predicate SecondPerson(c: Config, w: World, actor: Option<Principal>, id: nat, digest: string) {
    && actor.Some? && id in w.changes && w.changes[id].state == Pending && actor.value != w.changes[id].proposedBy
    && digest == w.changes[id].digest && c.environment == w.changes[id].environment
    && (w.changes[id].kind.Grant? ==> w.now < w.changes[id].kind.expiresAt)
  }

  /** The change is applied to its account's profile: an active or a new one for a grant, an administrator's for a revocation. */
  ghost predicate Applicable(w: World, ch: Change, newId: nat) {
    && (ch.kind.Grant? ==> && (forall id | Owns(w, ch.account, id) :: w.profiles[id].active)
                           && (Unowned(w, ch.account) ==> newId !in w.profiles))
    && (ch.kind.Revoke? ==> exists id :: Owns(w, ch.account, id) && w.profiles[id].role == Admin)
  }

  lemma ApprovesExactly(c: Config, w: World, actor: Option<Principal>, id: nat, digest: string, newId: nat)
    requires Inv(c, w)
    ensures Approve(c, w, actor, id, digest, newId).Some?
       <==> SecondPerson(c, w, actor, id, digest) && Applicable(w, w.changes[id], newId)
  {
    if id in w.changes { OwnerFound(w, w.changes[id].account); }
  }

  /** The change alone leaves pending, as applied by the approver and the last one applied. */
  ghost predicate Settles(w: World, w': World, id: nat, approver: Principal)
    requires id in w.changes
  {
    && w'.changes == w.changes[id := w.changes[id].(state := Applied(approver, w.applied))]
    && w'.applied == w.applied + 1 && w'.now == w.now
  }

  ghost predicate OthersStay(w: World, w': World, target: nat) {
    && w'.profiles.Keys == w.profiles.Keys + {target}
    && forall j | j in w.profiles && j != target :: w'.profiles[j] == w.profiles[j]
  }

  /**
   An approved grant makes the account's profile an active administrator, with the organization it
   names, without an elevation, and backed by a grant that is active. Everybody else stays.
   */
  lemma GrantMakesAdministrator(c: Config, w: World, actor: Option<Principal>, id: nat, digest: string, newId: nat)
    returns (target: nat)
    requires Inv(c, w) && Approve(c, w, actor, id, digest, newId).Some? && w.changes[id].kind.Grant?
    ensures var ch, w' := w.changes[id], Approve(c, w, actor, id, digest, newId).value;
            && Owns(w', ch.account, target) && OthersStay(w, w', target) && Settles(w, w', id, actor.value)
            && w'.profiles[target].role == Admin && w'.profiles[target].active
            && w'.profiles[target].elevatedUntil == None
            && (ch.kind.org.Some? ==> w'.profiles[target].org == ch.kind.org)
            && ActiveGrant(w', ch.account, c.environment) && HasAdminAuthority(See(c, w', target))
    ensures var ch, w' := w.changes[id], Approve(c, w, actor, id, digest, newId).value;
            if Owns(w, ch.account, target) then
              && w'.profiles[target].wallet == w.profiles[target].wallet
              && (ch.kind.org.None? ==> w'.profiles[target].org == w.profiles[target].org)
            else
              && Unowned(w, ch.account) && target == newId && newId !in w.profiles
              && w'.profiles[target].wallet == None && w'.profiles[target].org == ch.kind.org
  {
    var ch, w' := w.changes[id], Approve(c, w, actor, id, digest, newId).value;
    OwnerFound(w, ch.account);
    target := ByAccount(w, ch.account).GetOr(newId);
    assert AppliedFor(w'.changes[id], ch.account, c.environment);
    forall j | j in w'.changes && AppliedFor(w'.changes[j], ch.account, c.environment)
      ensures w'.changes[j].state.order <= w'.changes[id].state.order
    {
      assert ChangeOk(c, w, j);
    }
    assert LatestApplied(w', ch.account, c.environment, id);
  }

  /** An approved revocation leaves the account's profile with the resulting role and nothing else changed. */
  lemma RevocationUnmakesAdministrator(c: Config, w: World, actor: Option<Principal>, id: nat, digest: string, newId: nat)
    returns (target: nat)
    requires Inv(c, w) && Approve(c, w, actor, id, digest, newId).Some? && w.changes[id].kind.Revoke?
    ensures var ch, w' := w.changes[id], Approve(c, w, actor, id, digest, newId).value;
            && Owns(w, ch.account, target) && w.profiles[target].role == Admin
            && OthersStay(w, w', target) && Settles(w, w', id, actor.value)
            && w'.profiles[target] == w.profiles[target].(role := ch.kind.resulting)
            && ch.kind.resulting in {Buyer, Supplier} && !ActiveGrant(w', ch.account, c.environment)
  {
    var ch := w.changes[id];
    OwnerFound(w, ch.account);
    target := ByAccount(w, ch.account).value;
    assert ChangeOk(c, w, id);
    RevocationEnds(c, w, DoApprove(actor, id, digest, newId));
  }

  /** A cancellation by a named principal takes a pending change out, for good; anything else is refused. */
  lemma CancelsExactly(w: World, actor: Option<Principal>, id: nat)
    ensures var r := Cancel(w, actor, id);
            && (r.Some? <==> actor.Some? && id in w.changes && w.changes[id].state == Pending)
            && (r.Some? ==> && r.value.profiles == w.profiles && r.value.applied == w.applied && r.value.now == w.now
                            && r.value.changes == w.changes[id := w.changes[id].(state := Cancelled(actor.value))])
  {
  }

  // ---------------------------------------------------------------- single-person controls

  /** The wallet asked for is nobody else's. */
  ghost predicate WalletOpen(w: World, who: Identity) {
    who.wallet.Some? ==> forall id | Linked(w, who.wallet.value, id) :: w.profiles[id].account == who.account
  }

  ghost predicate Provisionable(w: World, who: Identity, newId: nat) {
    && who.role != Admin && WalletOpen(w, who)
    && (forall id | Owns(w, who.account, id) :: !(w.profiles[id].role == Admin && w.profiles[id].active))
    && (Unowned(w, who.account) ==> newId !in w.profiles)
  }

  /** Provisioning writes an active profile with the role, keeping organization and wallet where none is given. */
  lemma ProvisionsExactly(w: World, who: Identity, newId: nat)
    requires UniqueAccounts(w)
    ensures var r := Provision(w, who, newId);
            && (r.Some? <==> Provisionable(w, who, newId))
            && (r.Some? ==> forall id | Owns(w, who.account, id) ::
                  WroteProfile(w, r.value, id) && r.value.profiles[id] == w.profiles[id].(
                    role := who.role, active := true, elevatedUntil := None,
                    wallet := if who.wallet.Some? then who.wallet else w.profiles[id].wallet,
                    org := if who.org.Some? then who.org else w.profiles[id].org))
            && (r.Some? && Unowned(w, who.account) ==>
                  WroteProfile(w, r.value, newId) && r.value.profiles[newId] == Profile(
                    account := who.account, wallet := who.wallet, role := who.role, org := who.org, active := true,
                    elevatedUntil := None))
  {
    OwnerFound(w, who.account);
  }

  /** Deactivation switches the profile off and ends an elevation; its role and organization stay. */
  lemma DeactivatesExactly(w: World, a: Account)
    requires UniqueAccounts(w)
    ensures var r := Deactivate(w, a);
            && (r.Some? <==> !Unowned(w, a))
            && (r.Some? ==> forall id | Owns(w, a, id) ::
                  WroteProfile(w, r.value, id)
                  && r.value.profiles[id] == w.profiles[id].(active := false, elevatedUntil := None))
  {
    OwnerFound(w, a);
  }

  /** Break-glass lifts a profile that is not an administrator's until the time runs out; its base role stays. */
  lemma ElevatesExactly(w: World, who: Identity, ttl: nat, newId: nat)
    requires UniqueAccounts(w)
    ensures var r := GrantBreakGlass(w, who, ttl, newId);
            && (r.Some? <==> && who.role != Admin && WalletOpen(w, who)
                             && (forall id | Owns(w, who.account, id) :: w.profiles[id].role != Admin)
                             && (Unowned(w, who.account) ==> newId !in w.profiles))
            && (r.Some? ==> forall id | Owns(w, who.account, id) ::
                  WroteProfile(w, r.value, id) && r.value.profiles[id] == w.profiles[id].(
                    active := true, elevatedUntil := Some(w.now + ttl),
                    wallet := if who.wallet.Some? then who.wallet else w.profiles[id].wallet,
                    org := if who.org.Some? then who.org else w.profiles[id].org))
            && (r.Some? && Unowned(w, who.account) ==>
                  WroteProfile(w, r.value, newId) && r.value.profiles[newId] == Profile(
                    account := who.account, wallet := who.wallet, role := who.role, org := who.org, active := true,
                    elevatedUntil := Some(w.now + ttl)))
  {
    OwnerFound(w, who.account);
  }

  lemma LowersExactly(w: World, a: Account)
    requires UniqueAccounts(w)
    ensures var r := RevokeBreakGlass(w, a);
            && (r.Some? <==> !Unowned(w, a))
            && (r.Some? ==> forall id | Owns(w, a, id) ::
                  WroteProfile(w, r.value, id) && r.value.profiles[id] == w.profiles[id].(elevatedUntil := None))
  {
    OwnerFound(w, a);
  }

  /** A wallet login finds the wallet's profile and writes at most its organization, or makes an ordinary one. */
  lemma LogsInExactly(w: World, x: Wallet, role: Role, org: Option<Org>, generated: Account, newId: nat)
    requires UniqueAccounts(w) && UniqueWallets(w)
    ensures var r := Login(w, x, role, org, generated, newId);
            && (r.Some? <==> && role in {Buyer, Supplier}
                             && (Unlinked(w, x) ==> newId !in w.profiles && Unowned(w, generated)))
            && (r.Some? ==> forall id | Linked(w, x, id) ::
                  && WroteProfile(w, r.value, id)
                  && r.value.profiles[id] == w.profiles[id].(org := if org.Some? then org else w.profiles[id].org))
            && (r.Some? && Unlinked(w, x) ==>
                  WroteProfile(w, r.value, newId) && r.value.profiles[newId] == Profile(
                    account := generated, wallet := Some(x), role := role, org := org, active := true,
                    elevatedUntil := None))
  {
    LinkFound(w, x);
    OwnerFound(w, generated);
  }

  // ---------------------------------------------------------------- session exchange

  predicate Elevated(w: World, id: nat)
    requires id in w.profiles
  {
    w.profiles[id].elevatedUntil.Some? && w.now < w.profiles[id].elevatedUntil.value
  }

  /** Durable authority backed by an active grant, or an elevation that has not run out. */
  ghost predicate Administers(c: Config, w: World, id: nat)
    requires id in w.profiles
  {
    if w.profiles[id].role == Admin then ActiveGrant(w, w.profiles[id].account, c.environment) else Elevated(w, id)
  }

  /** The organization the exchange works with: the key's, where it is bound to one. */
  function OrgMeant(key: KeyPolicy, who: Identity): Option<Org> { if key.org.Some? then key.org else who.org }

  predicate KeyAllows(key: KeyPolicy, who: Identity) {
    who.role in key.roles && (key.org.Some? && who.org.Some? ==> who.org == key.org)
  }

  /** The key stays within its organization, and no administrator is taken to another. */
  ghost predicate OrgAllows(c: Config, w: World, key: KeyPolicy, who: Identity, id: nat)
    requires id in w.profiles
  {
    && (key.org.Some? && w.profiles[id].org.Some? ==> w.profiles[id].org == key.org)
    && ((w.profiles[id].role == Admin || Administers(c, w, id)) && OrgMeant(key, who).Some? ==>
          OrgMeant(key, who) == w.profiles[id].org)
  }

  /** An administrator session needs the authority; an ordinary one must not write over it. */
  ghost predicate RoleAllows(c: Config, w: World, key: KeyPolicy, who: Identity, id: nat)
    requires id in w.profiles
  {
    if who.role == Admin then Administers(c, w, id)
    else w.profiles[id].role != Admin && (Administers(c, w, id) ==> Admin in key.roles)
  }

  lemma AdministersIsSeen(c: Config, w: World, id: nat)
    requires id in w.profiles
    ensures Administers(c, w, id) <==> HasAdminAuthority(See(c, w, id))
  {
  }

  /** What an exchange leaves of the profile it is for. */
  function Exchanged(p: Profile, key: KeyPolicy, who: Identity): Profile {
    p.(account := who.account, wallet := if who.wallet.Some? then who.wallet else p.wallet,
       role := if who.role == Admin then p.role else who.role,
       org := if who.role != Admin && OrgMeant(key, who).Some? then OrgMeant(key, who) else p.org)
  }

  ghost predicate FreshIdentity(w: World, who: Identity) {
    Unowned(w, who.account) && (who.wallet.Some? ==> Unlinked(w, who.wallet.value))
  }

  /** Nobody known: an ordinary profile is made. */
  lemma ExchangeMakes(c: Config, w: World, key: KeyPolicy, who: Identity, newId: nat)
    requires Inv(c, w) && FreshIdentity(w, who)
    ensures var r := Exchange(c, w, key, who, newId);
            && (r.Some? <==> KeyAllows(key, who) && who.role != Admin && newId !in w.profiles)
            && (r.Some? ==> && r.value.1 == newId && WroteProfile(w, r.value.0, newId)
                            && r.value.0.profiles[newId] == Profile(
                                 account := who.account, wallet := who.wallet, role := who.role,
                                 org := OrgMeant(key, who), active := true, elevatedUntil := None))
  {
    OwnerFound(w, who.account);
    if who.wallet.Some? { LinkFound(w, who.wallet.value); }
  }

  /** The account's profile, where the wallet asked for is not another's: that profile is written. */
  lemma ExchangeOfAccount(c: Config, w: World, key: KeyPolicy, who: Identity, newId: nat, id: nat)
    requires Inv(c, w) && Owns(w, who.account, id) && WalletOpen(w, who)
    ensures var r := Exchange(c, w, key, who, newId);
            && (r.Some? <==> KeyAllows(key, who) && OrgAllows(c, w, key, who, id) && RoleAllows(c, w, key, who, id))
            && (r.Some? ==> && r.value.1 == id && WroteProfile(w, r.value.0, id)
                            && r.value.0.profiles[id] == Exchanged(w.profiles[id], key, who))
  {
    OwnerFound(w, who.account);
    if who.wallet.Some? { LinkFound(w, who.wallet.value); }
    AdministersIsSeen(c, w, id);
  }

  /** No profile of the account, but one of the wallet: it is moved there, if its own account is a placeholder. */
  lemma ExchangeOfWallet(c: Config, w: World, key: KeyPolicy, who: Identity, newId: nat, id: nat)
    requires Inv(c, w) && Unowned(w, who.account) && who.wallet.Some? && Linked(w, who.wallet.value, id)
    ensures var r := Exchange(c, w, key, who, newId);
            && (r.Some? <==> && c.legacy(w.profiles[id].account) && KeyAllows(key, who) && OrgAllows(c, w, key, who, id)
                             && RoleAllows(c, w, key, who, id))
            && (r.Some? ==> && r.value.1 == id && WroteProfile(w, r.value.0, id)
                            && r.value.0.profiles[id] == Exchanged(w.profiles[id], key, who))
  {
    OwnerFound(w, who.account);
    LinkFound(w, who.wallet.value);
    AdministersIsSeen(c, w, id);
  }

  /** Two profiles: the wallet's goes, if it is a placeholder without authority and the account's has no other wallet. */
  lemma ExchangeJoins(c: Config, w: World, key: KeyPolicy, who: Identity, newId: nat, into: nat, gone: nat)
    requires Inv(c, w) && Owns(w, who.account, into) && who.wallet.Some? && Linked(w, who.wallet.value, gone)
    requires into != gone
    ensures var r := Exchange(c, w, key, who, newId);
            && (r.Some? <==> && c.legacy(w.profiles[gone].account) && w.profiles[into].wallet.None? && KeyAllows(key, who)
                             && w.profiles[gone].role != Admin && !Administers(c, w, gone)
                             && OrgAllows(c, w, key, who, gone) && OrgAllows(c, w, key, who, into)
                             && RoleAllows(c, w, key, who, into))
            && (r.Some? ==> && r.value.1 == into && r.value.0.changes == w.changes
                            && r.value.0.profiles.Keys == w.profiles.Keys - {gone}
                            && (forall j | j in w.profiles && j != gone && j != into ::
                                  r.value.0.profiles[j] == w.profiles[j])
                            && r.value.0.profiles[into] == Exchanged(w.profiles[into], key, who))
  {
    OwnerFound(w, who.account);
    LinkFound(w, who.wallet.value);
    AdministersIsSeen(c, w, into);
    AdministersIsSeen(c, w, gone);
    assert w.profiles[into].wallet.Some? ==> w.profiles[into].wallet != who.wallet;
  }
}
