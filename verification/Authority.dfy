/**
 Administrator authority: two-person changes, the trusted session exchange that must not create or
 change it, and the single-person controls beside them, as transactions on the same tables.
 */
module Authority {
  import opened Common

  datatype Account = Account(text: string)
  datatype Wallet = Wallet(text: string)
  datatype Org = Org(text: string)
  datatype Principal = Principal(text: string)

  datatype Role = Buyer | Supplier | Admin | Oracle

  /** `elevatedUntil` is the end of an unrevoked break-glass elevation. */
  datatype Profile = Profile(
    account: Account, wallet: Option<Wallet>, role: Role, org: Option<Org>, active: bool, elevatedUntil: Option<int>)

  datatype Kind = Grant(org: Option<Org>, expiresAt: int) | Revoke(resulting: Role)

  datatype State = Pending | Applied(approver: Principal, order: nat) | Cancelled(canceller: Principal)

  datatype Change = Change(
    account: Account, kind: Kind, environment: string, digest: string, proposedBy: Principal, state: State)

  datatype World = World(profiles: map<nat, Profile>, changes: map<nat, Change>, applied: nat, now: int)

  /** The environment the service runs in, which account ids are legacy placeholders, and the evidence digest. */
  datatype Config = Config(
    environment: string, legacy: Account -> bool,
    digest: (Account, Kind, string, string, Principal) -> string)

  // ---------------------------------------------------------------- lookups

  ghost function ByAccount(w: World, a: Account): Option<nat> {
    if exists id :: id in w.profiles && w.profiles[id].account == a then
      var id :| id in w.profiles && w.profiles[id].account == a; Some(id)
    else None
  }

  ghost function ByWallet(w: World, x: Wallet): Option<nat> {
    if exists id :: id in w.profiles && w.profiles[id].wallet == Some(x) then
      var id :| id in w.profiles && w.profiles[id].wallet == Some(x); Some(id)
    else None
  }

  ghost function PendingFor(w: World, a: Account, environment: string): Option<nat> {
    if exists id :: id in w.changes && IsPending(w.changes[id], a, environment) then
      var id :| id in w.changes && IsPending(w.changes[id], a, environment); Some(id)
    else None
  }

  predicate IsPending(c: Change, a: Account, environment: string) {
    c.account == a && c.environment == environment && c.state.Pending?
  }

  predicate AppliedFor(c: Change, a: Account, environment: string) {
    c.account == a && c.environment == environment && c.state.Applied?
  }

  ghost predicate LatestApplied(w: World, a: Account, environment: string, id: nat) {
    && id in w.changes && AppliedFor(w.changes[id], a, environment)
    && forall j | j in w.changes && AppliedFor(w.changes[j], a, environment) ::
         w.changes[j].state.order <= w.changes[id].state.order
  }

  /** The latest applied change of the account in the environment is a grant that has not expired. */
  ghost predicate ActiveGrant(w: World, a: Account, environment: string) {
    exists id :: LatestApplied(w, a, environment, id) && w.changes[id].kind.Grant? && w.changes[id].kind.expiresAt > w.now
  }

  function EffectiveRole(p: Profile, now: int): Role {
    if p.elevatedUntil.Some? && p.elevatedUntil.value > now then Admin else p.role
  }

  /** A profile as the exchange sees it, with whether its durable authority is backed by a grant. */
  datatype Seen = Seen(profile: Profile, role: Role, provisioned: bool)

  ghost function See(c: Config, w: World, id: nat): Seen
    requires id in w.profiles
  {
    var p := w.profiles[id];
    Seen(p, EffectiveRole(p, w.now), p.role == Admin && ActiveGrant(w, p.account, c.environment))
  }

  predicate HasAdminAuthority(s: Seen) { s.role == Admin && (s.profile.role != Admin || s.provisioned) }

  // ---------------------------------------------------------------- session exchange

  datatype KeyPolicy = KeyPolicy(roles: set<Role>, org: Option<Org>)

  datatype Identity = Identity(account: Account, role: Role, org: Option<Org>, wallet: Option<Wallet>)

  datatype Write = Write(role: Option<Role>, org: Option<Org>)

  function RequestedOrg(key: KeyPolicy, org: Option<Org>): Option<Option<Org>> {
    if key.org.None? then Some(org)
    else if org.Some? && org != key.org then None
    else Some(key.org)
  }

  predicate OrganizationOk(key: KeyPolicy, s: Seen, org: Option<Org>) {
    && (key.org.Some? && s.profile.org.Some? ==> s.profile.org == key.org)
    && ((s.profile.role == Admin || HasAdminAuthority(s)) && org.Some? ==> org == s.profile.org)
  }

  /** What the exchange may write; nothing when it refuses. */
  function AuthorizeExchange(key: KeyPolicy, role: Role, requested: Option<Org>, target: Option<Seen>,
                             absorbed: Option<Seen>): Option<Write>
  {
    if role !in key.roles then None
    else
      match RequestedOrg(key, requested)
      case None => None
      case Some(org) =>
        if absorbed.Some? && (absorbed.value.profile.role == Admin || HasAdminAuthority(absorbed.value)) then None
        else if absorbed.Some? && !OrganizationOk(key, absorbed.value, org) then None
        else if target.Some? && !OrganizationOk(key, target.value, org) then None
        else if role == Admin then
          if target.None? || !HasAdminAuthority(target.value) then None else Some(Write(None, None))
        else if target.Some? && target.value.profile.role == Admin then None
        else if target.Some? && HasAdminAuthority(target.value) && Admin !in key.roles then None
        else Some(Write(Some(role), org))
  }

  function Updated(p: Profile, account: Account, wallet: Option<Wallet>, write: Write): Profile {
    p.(account := account, wallet := if wallet.Some? then wallet else p.wallet,
       role := write.role.GetOr(p.role), org := if write.org.Some? then write.org else p.org)
  }

  function Without(ps: map<nat, Profile>, id: nat): map<nat, Profile> { map i | i in ps && i != id :: ps[i] }

  /** The profile behind the exchanged session, and the tables after it; none when refused. */
  ghost function Exchange(c: Config, w: World, key: KeyPolicy, who: Identity, newId: nat): Option<(World, nat)> {
    var account := ByAccount(w, who.account);
    var wallet := if who.wallet.Some? then ByWallet(w, who.wallet.value) else None;
    if account.Some? && wallet.Some? && account != wallet then Merge(c, w, key, who, account.value, wallet.value)
    else if account.Some? then Relink(c, w, key, who, account.value)
    else if wallet.Some? then
      if c.legacy(w.profiles[wallet.value].account) then Relink(c, w, key, who, wallet.value) else None
    else if newId in w.profiles then None
    else
      match AuthorizeExchange(key, who.role, who.org, None, None)
      case None => None
      case Some(write) =>
        var p := Profile(who.account, who.wallet, write.role.GetOr(Buyer), write.org, true, None);
        Some((w.(profiles := w.profiles[newId := p]), newId))
  }

  ghost function Merge(c: Config, w: World, key: KeyPolicy, who: Identity, into: nat, gone: nat): Option<(World, nat)>
    requires into in w.profiles && gone in w.profiles && into != gone
  {
    if !c.legacy(w.profiles[gone].account) then None
    else if w.profiles[into].wallet.Some? && w.profiles[into].wallet != who.wallet then None
    else
      match AuthorizeExchange(key, who.role, who.org, Some(See(c, w, into)), Some(See(c, w, gone)))
      case None => None
      case Some(write) =>
        var rest := Without(w.profiles, gone);
        Some((w.(profiles := rest[into := Updated(rest[into], who.account, who.wallet, write)]), into))
  }

  ghost function Relink(c: Config, w: World, key: KeyPolicy, who: Identity, id: nat): Option<(World, nat)>
    requires id in w.profiles
  {
    match AuthorizeExchange(key, who.role, who.org, Some(See(c, w, id)), None)
    case None => None
    case Some(write) =>
      Some((w.(profiles := w.profiles[id := Updated(w.profiles[id], who.account, who.wallet, write)]), id))
  }

  // ---------------------------------------------------------------- two-person changes

  /** What the table accepts: a revocation leaves an ordinary role. */
  predicate KindOk(k: Kind) { k.Revoke? ==> k.resulting == Buyer || k.resulting == Supplier }

  ghost function Propose(c: Config, w: World, actor: Option<Principal>, a: Account, k: Kind, environment: string,
                         ticket: string, newId: nat): Option<World>
  {
    var id := ByAccount(w, a);
    if actor.None? || environment != c.environment then None
    else if k.Grant? && id.Some? && !w.profiles[id.value].active then None
    else if k.Revoke? && (id.None? || w.profiles[id.value].role != Admin) then None
    else
      var digest := c.digest(a, k, environment, ticket, actor.value);
      var pending := PendingFor(w, a, environment);
      if pending.Some? then if w.changes[pending.value].digest == digest then Some(w) else None
      else if newId in w.changes || !KindOk(k) then None
      else Some(w.(changes := w.changes[newId := Change(a, k, environment, digest, actor.value, Pending)]))
  }

  predicate MayApprove(c: Config, w: World, actor: Option<Principal>, id: nat, digest: string) {
    && actor.Some? && id in w.changes
    && w.changes[id].state.Pending? && w.changes[id].proposedBy != actor.value
    && w.changes[id].digest == digest && w.changes[id].environment == c.environment
    && (w.changes[id].kind.Grant? ==> w.changes[id].kind.expiresAt > w.now)
  }

  function MarkApplied(w: World, id: nat, who: Principal): World
    requires id in w.changes
  {
    w.(changes := w.changes[id := w.changes[id].(state := Applied(who, w.applied))], applied := w.applied + 1)
  }

  function Granted(p: Profile, a: Account, org: Option<Org>): Profile {
    Updated(p, a, None, Write(Some(Admin), org)).(elevatedUntil := None)
  }

  /** The profiles with the change written to its target; none where it cannot be applied. */
  ghost function Written(w: World, ch: Change, newId: nat): Option<map<nat, Profile>> {
    var target := ByAccount(w, ch.account);
    match ch.kind
    case Grant(org, _) =>
      if target.None? then
        if newId in w.profiles then None
        else Some(w.profiles[newId := Profile(ch.account, None, Admin, org, true, None)])
      else if !w.profiles[target.value].active then None
      else Some(w.profiles[target.value := Granted(w.profiles[target.value], ch.account, org)])
    case Revoke(role) =>
      if target.None? || w.profiles[target.value].role != Admin then None
      else
        Some(w.profiles[target.value :=
          Updated(w.profiles[target.value], ch.account, None, Write(Some(role), None))])
  }

  ghost function Approve(c: Config, w: World, actor: Option<Principal>, id: nat, digest: string, newId: nat): Option<World> {
    if !MayApprove(c, w, actor, id, digest) then None
    else
      var ps := Written(w, w.changes[id], newId);
      if ps.None? then None else Some(MarkApplied(w, id, actor.value).(profiles := ps.value))
  }

  function Cancel(w: World, actor: Option<Principal>, id: nat): Option<World> {
    if actor.None? || id !in w.changes || !w.changes[id].state.Pending? then None
    else Some(w.(changes := w.changes[id := w.changes[id].(state := Cancelled(actor.value))]))
  }

  // ---------------------------------------------------------------- single-person controls

  /** The unique index on wallets. */
  predicate WalletFree(w: World, wallet: Option<Wallet>, id: Option<nat>) {
    wallet.Some? ==> forall i | i in w.profiles && Some(i) != id :: w.profiles[i].wallet != wallet
  }

  ghost function Provision(w: World, who: Identity, newId: nat): Option<World> {
    var id := ByAccount(w, who.account);
    if who.role == Admin || (id.Some? && w.profiles[id.value].role == Admin && w.profiles[id.value].active) then None
    else if !WalletFree(w, who.wallet, id) then None
    else if id.Some? then
      var p := Updated(w.profiles[id.value], who.account, who.wallet, Write(Some(who.role), who.org));
      Some(w.(profiles := w.profiles[id.value := p.(active := true, elevatedUntil := None)]))
    else if newId in w.profiles then None
    else Some(w.(profiles := w.profiles[newId := Profile(who.account, who.wallet, who.role, who.org, true, None)]))
  }

  ghost function Deactivate(w: World, a: Account): Option<World> {
    var id := ByAccount(w, a);
    if id.None? then None
    else Some(w.(profiles := w.profiles[id.value := w.profiles[id.value].(active := false, elevatedUntil := None)]))
  }

  /** `who.role` is the base role a new profile gets; it cannot be `admin`. */
  ghost function GrantBreakGlass(w: World, who: Identity, ttl: nat, newId: nat): Option<World> {
    var id := ByAccount(w, who.account);
    if who.role == Admin || (id.Some? && w.profiles[id.value].role == Admin) || !WalletFree(w, who.wallet, id) then None
    else if id.Some? then
      var p := Updated(w.profiles[id.value], who.account, who.wallet, Write(None, who.org));
      Some(w.(profiles := w.profiles[id.value := p.(active := true, elevatedUntil := Some(w.now + ttl))]))
    else if newId in w.profiles then None
    else
      var p := Profile(who.account, who.wallet, who.role, who.org, true, Some(w.now + ttl));
      Some(w.(profiles := w.profiles[newId := p]))
  }

  ghost function RevokeBreakGlass(w: World, a: Account): Option<World> {
    var id := ByAccount(w, a);
    if id.None? then None
    else Some(w.(profiles := w.profiles[id.value := w.profiles[id.value].(elevatedUntil := None)]))
  }

  /**
   A wallet login: an ordinary role only; an existing profile of the wallet keeps its role and takes the
   organization given, a new one gets a generated account id.
   */
  ghost function Login(w: World, x: Wallet, role: Role, org: Option<Org>, generated: Account, newId: nat): Option<World> {
    var id := ByWallet(w, x);
    if role == Admin || role == Oracle then None
    else if id.Some? then
      var p := w.profiles[id.value];
      Some(w.(profiles := w.profiles[id.value := p.(org := if org.Some? then org else p.org)]))
    else if newId in w.profiles || ByAccount(w, generated).Some? then None
    else Some(w.(profiles := w.profiles[newId := Profile(generated, Some(x), role, org, true, None)]))
  }

  // ---------------------------------------------------------------- runs

  datatype Step =
    | DoLogin(wallet: Wallet, role: Role, org: Option<Org>, generated: Account, newId: nat)
    | DoExchange(key: KeyPolicy, who: Identity, newId: nat)
    | DoPropose(actor: Option<Principal>, account: Account, kind: Kind, environment: string, ticket: string, newId: nat)
    | DoApprove(actor: Option<Principal>, id: nat, digest: string, newId: nat)
    | DoCancel(actor: Option<Principal>, id: nat)
    | DoProvision(who: Identity, newId: nat)
    | DoDeactivate(account: Account)
    | DoGrantBreakGlass(who: Identity, ttl: nat, newId: nat)
    | DoRevokeBreakGlass(account: Account)
    | Tick(seconds: nat)

  ghost function Attempt(c: Config, w: World, s: Step): Option<World> {
    match s
    case DoLogin(x, role, org, generated, newId) => Login(w, x, role, org, generated, newId)
    case DoExchange(key, who, newId) => (match Exchange(c, w, key, who, newId) case None => None case Some(r) => Some(r.0))
    case DoPropose(actor, a, k, environment, ticket, newId) => Propose(c, w, actor, a, k, environment, ticket, newId)
    case DoApprove(actor, id, digest, newId) => Approve(c, w, actor, id, digest, newId)
    case DoCancel(actor, id) => Cancel(w, actor, id)
    case DoProvision(who, newId) => Provision(w, who, newId)
    case DoDeactivate(a) => Deactivate(w, a)
    case DoGrantBreakGlass(who, ttl, newId) => GrantBreakGlass(w, who, ttl, newId)
    case DoRevokeBreakGlass(a) => RevokeBreakGlass(w, a)
    case Tick(n) => Some(w.(now := w.now + n))
  }

  /** A refused transaction rolls back. */
  ghost function Next(c: Config, w: World, s: Step): World { Attempt(c, w, s).GetOr(w) }

  ghost function Run(c: Config, w: World, steps: seq<Step>): World
    decreases steps
  {
    if steps == [] then w else Run(c, Next(c, w, steps[0]), steps[1..])
  }
}
