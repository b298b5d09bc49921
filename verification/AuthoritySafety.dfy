/**
 Over every interleaving of exchanges, proposals, approvals, cancellations and single-person controls:
 who can become or stop being an administrator, and through what.
 */
module AuthoritySafety {
  import opened Common
  import opened Authority

  // ---------------------------------------------------------------- invariant

  ghost predicate UniqueAccounts(w: World) {
    forall i, j | i in w.profiles && j in w.profiles && w.profiles[i].account == w.profiles[j].account :: i == j
  }

  ghost predicate UniqueWallets(w: World) {
    forall i, j | i in w.profiles && j in w.profiles && w.profiles[i].wallet.Some?
                  && w.profiles[i].wallet == w.profiles[j].wallet ::
      i == j
  }

  /** An applied change names two principals, and was applied in this environment, once. */
  ghost predicate ChangeOk(c: Config, w: World, id: nat)
    requires id in w.changes
  {
    var ch := w.changes[id];
    && ch.environment == c.environment && KindOk(ch.kind)
    && (ch.state.Applied? ==> ch.state.approver != ch.proposedBy && ch.state.order < w.applied)
  }

  ghost predicate ChangesOk(c: Config, w: World) { forall id | id in w.changes :: ChangeOk(c, w, id) }

  ghost predicate OnePending(w: World) {
    forall i, j | i in w.changes && j in w.changes && w.changes[i].state.Pending? && w.changes[j].state.Pending?
                  && w.changes[i].account == w.changes[j].account && w.changes[i].environment == w.changes[j].environment ::
      i == j
  }

  ghost predicate OrdersApart(w: World) {
    forall i, j | i in w.changes && j in w.changes && w.changes[i].state.Applied? && w.changes[j].state.Applied?
                  && w.changes[i].state.order == w.changes[j].state.order ::
      i == j
  }

  ghost predicate Inv(c: Config, w: World) {
    UniqueAccounts(w) && UniqueWallets(w) && ChangesOk(c, w) && OnePending(w) && OrdersApart(w)
  }

  lemma AccountFound(w: World, a: Account, id: nat)
    requires UniqueAccounts(w) && id in w.profiles && w.profiles[id].account == a
    ensures ByAccount(w, a) == Some(id)
  {
  }

  // ---------------------------------------------------------------- the tables stay well formed

  /** A step that leaves changes alone and rewrites one profile under an account and wallet nobody else has. */
  lemma ProfileWritten(c: Config, w: World, w': World, id: nat, p: Profile)
    requires Inv(c, w) && w' == w.(profiles := w.profiles[id := p])
    requires forall j | j in w.profiles && j != id ::
               w.profiles[j].account != p.account && (p.wallet.Some? ==> w.profiles[j].wallet != p.wallet)
    ensures Inv(c, w')
  {
    forall i | i in w'.changes ensures ChangeOk(c, w', i) { assert ChangeOk(c, w, i); }
  }

  lemma RelinkKeeps(c: Config, w: World, key: KeyPolicy, who: Identity, id: nat)
    requires Inv(c, w) && id in w.profiles && Relink(c, w, key, who, id).Some?
    requires forall j | j in w.profiles && j != id :: w.profiles[j].account != who.account
    requires who.wallet.Some? ==> forall j | j in w.profiles && j != id :: w.profiles[j].wallet != who.wallet
    ensures Inv(c, Relink(c, w, key, who, id).value.0)
  {
    var w' := Relink(c, w, key, who, id).value.0;
    ProfileWritten(c, w, w', id, w'.profiles[id]);
  }

  lemma MergeKeeps(c: Config, w: World, key: KeyPolicy, who: Identity, into: nat, gone: nat)
    requires Inv(c, w) && into in w.profiles && gone in w.profiles && into != gone
    requires Merge(c, w, key, who, into, gone).Some?
    requires w.profiles[into].account == who.account && who.wallet.Some? && w.profiles[gone].wallet == who.wallet
    ensures Inv(c, Merge(c, w, key, who, into, gone).value.0)
  {
    var w' := Merge(c, w, key, who, into, gone).value.0;
    var mid := w.(profiles := Without(w.profiles, gone));
    forall i | i in mid.changes ensures ChangeOk(c, mid, i) { assert ChangeOk(c, w, i); }
    ProfileWritten(c, mid, w', into, w'.profiles[into]);
  }

  lemma ExchangeKeeps(c: Config, w: World, key: KeyPolicy, who: Identity, newId: nat)
    requires Inv(c, w) && Exchange(c, w, key, who, newId).Some?
    ensures Inv(c, Exchange(c, w, key, who, newId).value.0)
  {
    var account := ByAccount(w, who.account);
    var wallet := if who.wallet.Some? then ByWallet(w, who.wallet.value) else None;
    if account.Some? && wallet.Some? && account != wallet {
      MergeKeeps(c, w, key, who, account.value, wallet.value);
    } else if account.Some? {
      RelinkKeeps(c, w, key, who, account.value);
    } else if wallet.Some? {
      RelinkKeeps(c, w, key, who, wallet.value);
    } else {
      var w' := Exchange(c, w, key, who, newId).value.0;
      ProfileWritten(c, w, w', newId, w'.profiles[newId]);
    }
  }

  lemma ProposeKeeps(c: Config, w: World, s: Step)
    requires Inv(c, w) && s.DoPropose?
    ensures Inv(c, Next(c, w, s))
  {
    var w' := Next(c, w, s);
    if w' != w {
      assert forall j | j in w.changes :: !IsPending(w.changes[j], s.account, s.environment);
      forall i | i in w'.changes ensures ChangeOk(c, w', i) {
        if i != s.newId { assert ChangeOk(c, w, i); }
      }
    }
  }

  lemma MarkAppliedKeeps(c: Config, w: World, id: nat, who: Principal)
    requires Inv(c, w) && id in w.changes && w.changes[id].state.Pending? && w.changes[id].proposedBy != who
    ensures Inv(c, MarkApplied(w, id, who))
  {
    var w' := MarkApplied(w, id, who);
    forall i | i in w'.changes ensures ChangeOk(c, w', i) { assert ChangeOk(c, w, i); }
  }

  lemma ApproveKeeps(c: Config, w: World, s: Step)
    requires Inv(c, w) && s.DoApprove?
    ensures Inv(c, Next(c, w, s))
  {
    var r := Approve(c, w, s.actor, s.id, s.digest, s.newId);
    if r.Some? {
      MarkAppliedKeeps(c, w, s.id, s.actor.value);
      var w1, target := MarkApplied(w, s.id, s.actor.value), ByAccount(w, w.changes[s.id].account);
      var id := if target.Some? then target.value else s.newId;
      ProfileWritten(c, w1, r.value, id, r.value.profiles[id]);
    }
  }

  lemma CancelKeeps(c: Config, w: World, s: Step)
    requires Inv(c, w) && s.DoCancel?
    ensures Inv(c, Next(c, w, s))
  {
    var w' := Next(c, w, s);
    forall i | i in w'.changes ensures ChangeOk(c, w', i) { assert ChangeOk(c, w, i); }
  }

  lemma ControlKeeps(c: Config, w: World, s: Step)
    requires Inv(c, w) && (s.DoProvision? || s.DoDeactivate? || s.DoGrantBreakGlass? || s.DoRevokeBreakGlass?)
    ensures Inv(c, Next(c, w, s))
  {
    var w' := Next(c, w, s);
    if Attempt(c, w, s).Some? {
      var a := if s.DoProvision? || s.DoGrantBreakGlass? then s.who.account else s.account;
      var found := ByAccount(w, a);
      var id := if found.Some? then found.value else s.newId;
      ProfileWritten(c, w, w', id, w'.profiles[id]);
    }
  }

  lemma LoginKeeps(c: Config, w: World, s: Step)
    requires Inv(c, w) && s.DoLogin?
    ensures Inv(c, Next(c, w, s))
  {
    if Attempt(c, w, s).Some? {
      var w', found := Next(c, w, s), ByWallet(w, s.wallet);
      var id := if found.Some? then found.value else s.newId;
      ProfileWritten(c, w, w', id, w'.profiles[id]);
    }
  }

  lemma NextKeepsInv(c: Config, w: World, s: Step)
    requires Inv(c, w)
    ensures Inv(c, Next(c, w, s))
  {
    match s
    case DoLogin(_, _, _, _, _) => LoginKeeps(c, w, s);
    case DoExchange(key, who, newId) =>
      if Exchange(c, w, key, who, newId).Some? { ExchangeKeeps(c, w, key, who, newId); }
    case DoPropose(_, _, _, _, _, _) => ProposeKeeps(c, w, s);
    case DoApprove(_, _, _, _) => ApproveKeeps(c, w, s);
    case DoCancel(_, _) => CancelKeeps(c, w, s);
    case Tick(_) =>
      forall i | i in w.changes ensures ChangeOk(c, Next(c, w, s), i) { assert ChangeOk(c, w, i); }
    case _ => ControlKeeps(c, w, s);
  }

  lemma {:induction false} RunKeepsInv(c: Config, w: World, steps: seq<Step>)
    requires Inv(c, w)
    ensures Inv(c, Run(c, w, steps))
    decreases steps
  {
    if steps != [] {
      NextKeepsInv(c, w, steps[0]);
      RunKeepsInv(c, Next(c, w, steps[0]), steps[1..]);
    }
  }

  // ---------------------------------------------------------------- becoming and ceasing to be an administrator

  predicate IsAdmin(w: World, id: nat) { id in w.profiles && w.profiles[id].role == Admin }

  /** Approval of the change, by a second principal who names its digest. */
  predicate Approves(c: Config, w: World, s: Step, grant: bool) {
    s.DoApprove? && MayApprove(c, w, s.actor, s.id, s.digest) && w.changes[s.id].kind.Grant? == grant
  }

  lemma ExchangeKeepsAdmins(c: Config, w: World, key: KeyPolicy, who: Identity, newId: nat, id: nat)
    requires Exchange(c, w, key, who, newId).Some?
    ensures IsAdmin(Exchange(c, w, key, who, newId).value.0, id) <==> IsAdmin(w, id)
    ensures IsAdmin(w, id) ==> Exchange(c, w, key, who, newId).value.0.profiles[id].org == w.profiles[id].org
  {
  }

  /** A profile's base role becomes `admin` only in an approval of a grant. */
  lemma BecomesAdminOnlyByApproval(c: Config, w: World, s: Step, id: nat)
    requires Inv(c, w) && !IsAdmin(w, id) && IsAdmin(Next(c, w, s), id)
    ensures Approves(c, w, s, true) && w.changes[s.id].account == Next(c, w, s).profiles[id].account
  {
    if s.DoExchange? {
      if Exchange(c, w, s.key, s.who, s.newId).Some? {
        ExchangeKeepsAdmins(c, w, s.key, s.who, s.newId, id);
      }
      assert false;
    }
  }

  /**
   A profile's base role stops being `admin` only in an approval of a revocation, or when a profile
   that was deactivated before is provisioned again; and the latter always does it.
   */
  lemma CeasesAdminExactly(c: Config, w: World, s: Step, id: nat)
    requires Inv(c, w) && IsAdmin(w, id)
    ensures !IsAdmin(Next(c, w, s), id)
       <==> || (Approves(c, w, s, false) && w.changes[s.id].account == w.profiles[id].account)
            || (s.DoProvision? && s.who.account == w.profiles[id].account && !w.profiles[id].active
                && s.who.role != Admin && WalletFree(w, s.who.wallet, Some(id)))
  {
    match s
    case DoExchange(key, who, newId) =>
      if Exchange(c, w, key, who, newId).Some? {
        ExchangeKeepsAdmins(c, w, key, who, newId, id);
      }
    case DoApprove(_, _, _, _) => ApprovalCeases(c, w, s, id);
    case DoProvision(_, _) => ProvisionCeases(c, w, s, id);
    case _ =>
  }

  lemma ApprovalCeases(c: Config, w: World, s: Step, id: nat)
    requires Inv(c, w) && IsAdmin(w, id) && s.DoApprove?
    ensures !IsAdmin(Next(c, w, s), id)
       <==> Approves(c, w, s, false) && w.changes[s.id].account == w.profiles[id].account
  {
    AccountFound(w, w.profiles[id].account, id);
    if s.id in w.changes {
      assert ChangeOk(c, w, s.id);
    }
  }

  lemma ProvisionCeases(c: Config, w: World, s: Step, id: nat)
    requires Inv(c, w) && IsAdmin(w, id) && s.DoProvision?
    ensures !IsAdmin(Next(c, w, s), id)
       <==> && s.who.account == w.profiles[id].account && !w.profiles[id].active
            && s.who.role != Admin && WalletFree(w, s.who.wallet, Some(id))
  {
    AccountFound(w, w.profiles[id].account, id);
  }

  /** Over every run: a profile that is an administrator at its end and was not before became one in such an approval. */
  lemma {:induction false} AdministratorsComeFromApprovals(c: Config, w: World, steps: seq<Step>, id: nat) returns (i: nat)
    requires Inv(c, w) && !IsAdmin(w, id) && IsAdmin(Run(c, w, steps), id)
    ensures i < |steps|
    ensures var v := Run(c, w, steps[..i]);
            !IsAdmin(v, id) && IsAdmin(Next(c, v, steps[i]), id) && Approves(c, v, steps[i], true)
    decreases steps
  {
    var w1 := Next(c, w, steps[0]);
    if IsAdmin(w1, id) {
      BecomesAdminOnlyByApproval(c, w, steps[0], id);
      i := 0;
    } else {
      NextKeepsInv(c, w, steps[0]);
      var k := AdministratorsComeFromApprovals(c, w1, steps[1..], id);
      i := k + 1;
      assert steps[..i][0] == steps[0] && steps[..i][1..] == steps[1..][..k];
    }
  }

  // ---------------------------------------------------------------- what the exchange can issue

  /**
   An exchanged session carries the administrator role only if the key may issue it and the profile
   already had administrator authority before the exchange.
   */
  lemma AdminSessionNeedsBoth(c: Config, w: World, key: KeyPolicy, who: Identity, newId: nat)
    requires Exchange(c, w, key, who, newId).Some?
    ensures var (w', id) := Exchange(c, w, key, who, newId).value;
            EffectiveRole(w'.profiles[id], w'.now) == Admin ==>
              Admin in key.roles && id in w.profiles && HasAdminAuthority(See(c, w, id))
  {
  }

  /** Its organization is the one the key is bound to, when the key is bound and the profile has one. */
  lemma BoundKeyStaysInItsOrganization(c: Config, w: World, key: KeyPolicy, who: Identity, newId: nat)
    requires Exchange(c, w, key, who, newId).Some? && key.org.Some?
    ensures var (w', id) := Exchange(c, w, key, who, newId).value;
            w'.profiles[id].org.Some? ==> w'.profiles[id].org == key.org
  {
  }

  lemma WalletFound(w: World, x: Wallet, id: nat)
    requires UniqueWallets(w) && id in w.profiles && w.profiles[id].wallet == Some(x)
    ensures ByWallet(w, x) == Some(id)
  {
  }

  /** What a key and a request need for an administrator session of the profile. */
  ghost predicate MayIssueAdmin(c: Config, w: World, key: KeyPolicy, who: Identity, id: nat)
    requires id in w.profiles
  {
    && who.role == Admin && Admin in key.roles && HasAdminAuthority(See(c, w, id))
    && RequestedOrg(key, who.org).Some? && OrganizationOk(key, See(c, w, id), RequestedOrg(key, who.org).value)
  }

  /**
   Exactly when an exchange moves an administrator profile to another account: the account has no
   profile, the request names the profile's wallet, the profile's account is a placeholder, and key and
   request would be given an administrator session of it.
   */
  lemma RehomesAdminExactly(c: Config, w: World, key: KeyPolicy, who: Identity, newId: nat, id: nat)
    requires Inv(c, w) && IsAdmin(w, id)
    ensures var w' := Next(c, w, DoExchange(key, who, newId));
            id in w'.profiles && (w'.profiles[id].account != w.profiles[id].account
                             <==> && ByAccount(w, who.account).None? && who.wallet.Some?
                                  && w.profiles[id].wallet == who.wallet && c.legacy(w.profiles[id].account)
                                  && MayIssueAdmin(c, w, key, who, id))
  {
    AccountFound(w, w.profiles[id].account, id);
    if w.profiles[id].wallet.Some? { WalletFound(w, w.profiles[id].wallet.value, id); }
    if Exchange(c, w, key, who, newId).Some? {
      ExchangeKeepsAdmins(c, w, key, who, newId, id);
    }
  }

  /** The account-holder's profile is joined with one that was found by wallet, or the wallet is nobody's. */
  ghost predicate WalletIsFree(c: Config, w: World, key: KeyPolicy, who: Identity, id: nat)
    requires id in w.profiles && who.wallet.Some?
  {
    var other := ByWallet(w, who.wallet.value);
    other.None? || (&& other.value in w.profiles && c.legacy(w.profiles[other.value].account)
                    && w.profiles[id].wallet.None? && w.profiles[other.value].role != Admin
                    && !HasAdminAuthority(See(c, w, other.value)) && RequestedOrg(key, who.org).Some?
                    && OrganizationOk(key, See(c, w, other.value), RequestedOrg(key, who.org).value))
  }

  /**
   Exactly when an exchange changes the wallet of an administrator profile: the request names the
   profile's account and another wallet, one that is nobody's or that a placeholder profile without
   authority gives up to a profile that had none, and key and request would be given an administrator
   session of it. The wallet then leads to that profile. The old wallet is not asked for.
   */
  lemma AdminWalletExactly(c: Config, w: World, key: KeyPolicy, who: Identity, newId: nat, id: nat)
    requires Inv(c, w) && IsAdmin(w, id)
    ensures var w' := Next(c, w, DoExchange(key, who, newId));
            id in w'.profiles && (w'.profiles[id].wallet != w.profiles[id].wallet
                             <==> && who.account == w.profiles[id].account && who.wallet.Some?
                                  && who.wallet != w.profiles[id].wallet && WalletIsFree(c, w, key, who, id)
                                  && MayIssueAdmin(c, w, key, who, id))
  {
    AccountFound(w, w.profiles[id].account, id);
    if w.profiles[id].wallet.Some? { WalletFound(w, w.profiles[id].wallet.value, id); }
    if Exchange(c, w, key, who, newId).Some? {
      ExchangeKeepsAdmins(c, w, key, who, newId, id);
    }
  }

  lemma NewWalletLeadsThere(c: Config, w: World, key: KeyPolicy, who: Identity, newId: nat, id: nat)
    requires Inv(c, w) && IsAdmin(w, id)
    requires Next(c, w, DoExchange(key, who, newId)).profiles[id].wallet != w.profiles[id].wallet
    ensures who.wallet.Some? && ByWallet(Next(c, w, DoExchange(key, who, newId)), who.wallet.value) == Some(id)
  {
    AdminWalletExactly(c, w, key, who, newId, id);
    var w' := Next(c, w, DoExchange(key, who, newId));
    NextKeepsInv(c, w, DoExchange(key, who, newId));
    WalletFound(w', who.wallet.value, id);
  }

  /** A login that names an organization other than the profile's. */
  predicate LoginMovesOrg(w: World, s: Step, id: nat)
    requires id in w.profiles
  {
    && s.DoLogin? && s.role != Admin && s.role != Oracle
    && w.profiles[id].wallet == Some(s.wallet) && s.org.Some? && s.org != w.profiles[id].org
  }

  /** A grant for the profile that names an organization other than its own. */
  predicate GrantMovesOrg(c: Config, w: World, s: Step, id: nat)
    requires id in w.profiles
  {
    && Approves(c, w, s, true) && w.changes[s.id].account == w.profiles[id].account && w.profiles[id].active
    && w.changes[s.id].kind.org.Some? && w.changes[s.id].kind.org != w.profiles[id].org
  }

  /**
   Exactly when the organization of an administrator changes: in the approval of a grant that names
   another one, or in a wallet login that does.
   */
  lemma AdminOrganizationExactly(c: Config, w: World, s: Step, id: nat)
    requires Inv(c, w) && IsAdmin(w, id) && IsAdmin(Next(c, w, s), id)
    ensures Next(c, w, s).profiles[id].org != w.profiles[id].org
       <==> GrantMovesOrg(c, w, s, id) || LoginMovesOrg(w, s, id)
  {
    match s
    case DoExchange(key, who, newId) =>
      if Exchange(c, w, key, who, newId).Some? {
        ExchangeKeepsAdmins(c, w, key, who, newId, id);
      }
    case DoApprove(_, _, _, _) => ApprovalOrganization(c, w, s, id);
    case DoLogin(_, _, _, _, _) => LoginOrganization(c, w, s, id);
    case _ =>
  }

  lemma ApprovalOrganization(c: Config, w: World, s: Step, id: nat)
    requires Inv(c, w) && IsAdmin(w, id) && s.DoApprove? && IsAdmin(Next(c, w, s), id)
    ensures Next(c, w, s).profiles[id].org != w.profiles[id].org <==> GrantMovesOrg(c, w, s, id)
  {
    AccountFound(w, w.profiles[id].account, id);
  }

  lemma LoginOrganization(c: Config, w: World, s: Step, id: nat)
    requires Inv(c, w) && IsAdmin(w, id) && s.DoLogin?
    ensures IsAdmin(Next(c, w, s), id)
    ensures Next(c, w, s).profiles[id].org != w.profiles[id].org <==> LoginMovesOrg(w, s, id)
  {
    if w.profiles[id].wallet.Some? { WalletFound(w, w.profiles[id].wallet.value, id); }
  }

  /** Such a move exists: a granted administrator under a placeholder account, and a key that may issue `admin`. */
  lemma RehomedAdministrator(c: Config, placeholder: Account, account: Account, x: Wallet, proposer: Principal,
                             approver: Principal)
    requires c.legacy(placeholder) && placeholder != account && proposer != approver
    ensures var p := Profile(placeholder, Some(x), Admin, None, true, None);
            var g := Change(placeholder, Grant(None, 100), c.environment, "", proposer, Applied(approver, 0));
            var w := World(map[1 := p], map[1 := g], 1, 0);
            var r := Exchange(c, w, KeyPolicy({Admin}, None), Identity(account, Admin, None, Some(x)), 2);
            && Inv(c, w) && HasAdminAuthority(See(c, w, 1))
            && r.Some? && r.value.0.profiles[1] == p.(account := account) && !HasAdminAuthority(See(c, r.value.0, 1))
  {
    var p := Profile(placeholder, Some(x), Admin, None, true, None);
    var g := Change(placeholder, Grant(None, 100), c.environment, "", proposer, Applied(approver, 0));
    var w := World(map[1 := p], map[1 := g], 1, 0);
    assert LatestApplied(w, placeholder, c.environment, 1);
    var r := Exchange(c, w, KeyPolicy({Admin}, None), Identity(account, Admin, None, Some(x)), 2);
    assert p.account == placeholder;
    assert w.profiles[1].wallet == Some(x);
    assert ByAccount(w, account) == None && ByWallet(w, x) == Some(1);
  }

  // ---------------------------------------------------------------- two persons

  /** Durable authority always rests on an applied, unexpired grant of this environment by two principals. */
  lemma AuthorityRestsOnTwoPersons(c: Config, w: World, steps: seq<Step>, id: nat)
    requires Inv(c, w)
    ensures var w' := Run(c, w, steps);
            id in w'.profiles && See(c, w', id).provisioned ==> BackedByTwo(c, w', w'.profiles[id].account)
  {
    RunKeepsInv(c, w, steps);
    var w' := Run(c, w, steps);
    if id in w'.profiles && ActiveGrant(w', w'.profiles[id].account, c.environment) {
      GrantBackedByTwo(c, w', w'.profiles[id].account);
    }
  }

  ghost predicate BackedByTwo(c: Config, w: World, a: Account) {
    exists i :: && i in w.changes && w.changes[i].account == a && w.changes[i].environment == c.environment
                && w.changes[i].kind.Grant? && w.changes[i].kind.expiresAt > w.now
                && w.changes[i].state.Applied? && w.changes[i].state.approver != w.changes[i].proposedBy
  }

  lemma GrantBackedByTwo(c: Config, w: World, a: Account)
    requires Inv(c, w) && ActiveGrant(w, a, c.environment)
    ensures BackedByTwo(c, w, a)
  {
    var i :| LatestApplied(w, a, c.environment, i) && w.changes[i].kind.Grant? && w.changes[i].kind.expiresAt > w.now;
    assert ChangeOk(c, w, i);
  }

  // ---------------------------------------------------------------- changes

  predicate SameEvidence(a: Change, b: Change) { a == b.(state := a.state) }

  /** A change is never lost or altered, leaves `pending` once, and stays where it went. */
  lemma ChangeStep(c: Config, w: World, s: Step, id: nat)
    requires id in w.changes
    ensures var w' := Next(c, w, s);
            && id in w'.changes && SameEvidence(w'.changes[id], w.changes[id])
            && (!w.changes[id].state.Pending? ==> w'.changes[id] == w.changes[id])
            && (w'.changes[id].state != w.changes[id].state ==> (s.DoApprove? || s.DoCancel?) && s.id == id)
  {
  }

  lemma {:induction false} SettledChangesStay(c: Config, w: World, steps: seq<Step>, id: nat)
    requires id in w.changes
    ensures var w' := Run(c, w, steps);
            && id in w'.changes && SameEvidence(w'.changes[id], w.changes[id])
            && (!w.changes[id].state.Pending? ==> w'.changes[id] == w.changes[id])
    decreases steps
  {
    if steps != [] {
      ChangeStep(c, w, steps[0], id);
      SettledChangesStay(c, Next(c, w, steps[0]), steps[1..], id);
    }
  }

  // ---------------------------------------------------------------- authority that is gone stays gone

  /** The step approves no change of the account. */
  predicate LeavesAlone(w: World, s: Step, a: Account) {
    s.DoApprove? && s.id in w.changes ==> w.changes[s.id].account != a
  }

  lemma GrantGoneStep(c: Config, w: World, s: Step, a: Account)
    requires !ActiveGrant(w, a, c.environment) && LeavesAlone(w, s, a)
    ensures !ActiveGrant(Next(c, w, s), a, c.environment)
  {
    var w' := Next(c, w, s);
    forall id | LatestApplied(w', a, c.environment, id) ensures LatestApplied(w, a, c.environment, id) {
      AppliedForSame(c, w, s, a, id);
      forall j | j in w.changes && AppliedFor(w.changes[j], a, c.environment)
        ensures w.changes[j].state.order <= w.changes[id].state.order
      {
        ChangeStep(c, w, s, j);
        assert AppliedFor(w'.changes[j], a, c.environment);
      }
    }
    forall id | LatestApplied(w', a, c.environment, id) && w'.changes[id].kind.Grant?
      ensures w'.changes[id].kind.expiresAt <= w'.now
    {
      AppliedForSame(c, w, s, a, id);
      assert LatestApplied(w, a, c.environment, id);
    }
  }

  lemma AppliedForSame(c: Config, w: World, s: Step, a: Account, id: nat)
    requires LeavesAlone(w, s, a)
    requires id in Next(c, w, s).changes && AppliedFor(Next(c, w, s).changes[id], a, c.environment)
    ensures id in w.changes && w.changes[id] == Next(c, w, s).changes[id]
  {
  }

  ghost predicate LeftAlone(c: Config, w: World, steps: seq<Step>, a: Account)
    decreases steps
  {
    steps == [] || (LeavesAlone(w, steps[0], a) && LeftAlone(c, Next(c, w, steps[0]), steps[1..], a))
  }

  /**
   Once an account has no active grant, revoked, expired or never given, no run without a two-person
   approval for that account brings one back.
   */
  lemma {:induction false} GrantGoneForGood(c: Config, w: World, steps: seq<Step>, a: Account)
    requires !ActiveGrant(w, a, c.environment) && LeftAlone(c, w, steps, a)
    ensures !ActiveGrant(Run(c, w, steps), a, c.environment)
    decreases steps
  {
    if steps != [] {
      GrantGoneStep(c, w, steps[0], a);
      GrantGoneForGood(c, Next(c, w, steps[0]), steps[1..], a);
    }
  }

  /** An approved revocation ends the account's grant at once. */
  lemma RevocationEnds(c: Config, w: World, s: Step)
    requires Inv(c, w) && Approves(c, w, s, false) && Attempt(c, w, s).Some?
    ensures !ActiveGrant(Next(c, w, s), w.changes[s.id].account, c.environment)
  {
    var w', a := Next(c, w, s), w.changes[s.id].account;
    assert AppliedFor(w'.changes[s.id], a, c.environment);
    forall id | LatestApplied(w', a, c.environment, id) ensures id == s.id {
      assert ChangeOk(c, w, id);
    }
  }
}
