/** Organization membership and invitations: the last-owner guard and the one-use links. */
module Members {
  import opened Wrappers

  const INVITATION_TTL_MS: int := 7 * 24 * 60 * 60 * 1000

  datatype Role = Owner | Admin | Member | Viewer

  datatype Membership = Membership(role: Role, deactivatedAt: Option<int>)

  datatype Status = Pending | Accepted | Revoked | Expired

  datatype Invitation = Invitation(org: int, email: string, role: Role, status: Status, expiresAt: int)

  /**
   Rows are keyed as their unique indexes key them: members by (organization, user).
   `lower` is what `toLowerCase` makes of an address.
   */
  datatype Db = Db(
    lower: string -> string, orgs: set<int>, users: map<string, int>, members: map<(int, int), Membership>,
    invitations: map<int, Invitation>)

  datatype Error =
    | UserNotFound | AlreadyMember | NotAMember | LastOwner
    | NotFound | RevokedLink | AlreadyAccepted | ExpiredLink | EmailMismatch
    /** A foreign key or a unique index refuses the row. */
    | ConstraintViolated

  datatype Outcome = Done | Unchanged | Refused(error: Error)

  // ------------------------------------------------------------- operations

  /** The owners countOwners counts: those not deactivated. */
  function ActiveOwners(db: Db, org: int): set<(int, int)> {
    set k | k in db.members && k.0 == org && db.members[k].role == Owner && db.members[k].deactivatedAt == None
  }

  function CreateOrganization(db: Db, org: int, user: int): (Db, Outcome) {
    if org in db.orgs then (db, Refused(ConstraintViolated))
    else (db.(orgs := db.orgs + {org}, members := db.members[(org, user) := Membership(Owner, None)]), Done)
  }

  function AddOrgMember(db: Db, org: int, email: string, role: Role): (Db, Outcome) {
    if db.lower(email) !in db.users then (db, Refused(UserNotFound))
    else
      var key := (org, db.users[db.lower(email)]);
      if key in db.members then (db, Refused(AlreadyMember))
      else if org !in db.orgs then (db, Refused(ConstraintViolated))
      else (db.(members := db.members[key := Membership(role, None)]), Done)
  }

  function UpdateOrgMemberRole(db: Db, org: int, user: int, role: Role): (Db, Outcome) {
    var key := (org, user);
    if key !in db.members then (db, Refused(NotAMember))
    else if db.members[key].role == Owner && role != Owner && |ActiveOwners(db, org)| <= 1 then (db, Refused(LastOwner))
    else (db.(members := db.members[key := db.members[key].(role := role)]), Done)
  }

  function RemoveOrgMember(db: Db, org: int, user: int): (Db, Outcome) {
    var key := (org, user);
    if key !in db.members then (db, Refused(NotAMember))
    else if db.members[key].role == Owner && |ActiveOwners(db, org)| <= 1 then (db, Refused(LastOwner))
    else (db.(members := db.members - {key}), Done)
  }

  function SetMemberActive(db: Db, org: int, user: int, active: bool, now: int): (Db, Outcome) {
    var key := (org, user);
    if key !in db.members then (db, Refused(NotAMember))
    else if db.members[key].deactivatedAt.None? == active then (db, Unchanged)
    else if !active && db.members[key].role == Owner && |ActiveOwners(db, org)| <= 1 then (db, Refused(LastOwner))
    else
      (db.(members := db.members[key := db.members[key].(deactivatedAt := if active then None else Some(now))]), Done)
  }

  /** The rows a pending invitation for this address could be. */
  function PendingFor(db: Db, org: int, email: string): set<int> {
    set i | i in db.invitations && db.invitations[i].org == org && db.invitations[i].email == email
            && db.invitations[i].status == Pending
  }

  /** `existing` is the row the query's LIMIT 1 returns, `id` the fresh identifier of a new row. */
  function CreateInvitation(
    db: Db, org: int, email: string, role: Role, id: int, existing: Option<int>, now: int): (Db, Outcome)
    requires if existing.Some? then existing.value in PendingFor(db, org, db.lower(email))
             else PendingFor(db, org, db.lower(email)) == {}
  {
    if existing.Some? then
      var row := db.invitations[existing.value].(role := role, expiresAt := now + INVITATION_TTL_MS);
      (db.(invitations := db.invitations[existing.value := row]), Done)
    else if id in db.invitations || org !in db.orgs then (db, Refused(ConstraintViolated))
    else
      var row := Invitation(org, db.lower(email), role, Pending, now + INVITATION_TTL_MS);
      (db.(invitations := db.invitations[id := row]), Done)
  }

  function AcceptInvitation(db: Db, id: int, user: int, userEmail: string, now: int): (Db, Outcome) {
    if id !in db.invitations then (db, Refused(NotFound))
    else
      var inv := db.invitations[id];
      if inv.status == Revoked then (db, Refused(RevokedLink))
      else if inv.status == Accepted then (db, Refused(AlreadyAccepted))
      else if inv.status == Expired || inv.expiresAt < now then (db, Refused(ExpiredLink))
      else if inv.email != db.lower(userEmail) then (db, Refused(EmailMismatch))
      else
        var key := (inv.org, user);
        var members := if key in db.members then db.members else db.members[key := Membership(inv.role, None)];
        (db.(members := members, invitations := db.invitations[id := inv.(status := Accepted)]), Done)
  }

  function RevokeInvitation(db: Db, org: int, id: int): (Db, Outcome) {
    if id in db.invitations && db.invitations[id].org == org && db.invitations[id].status == Pending then
      (db.(invitations := db.invitations[id := db.invitations[id].(status := Revoked)]), Done)
    else (db, Unchanged)
  }

  /** LIMIT 1: any one of the rows. */
  method LimitOne<T>(rows: set<T>) returns (row: Option<T>)
    ensures if row.Some? then row.value in rows else rows == {}
  {
    if rows == {} { return None; }
    var i :| i in rows;
    return Some(i);
  }

  /** The database, one transaction at a time. */
  class Directory {
    var db: Db

    constructor (lower: string -> string, users: map<string, int>)
      ensures db == Db(lower, {}, users, map[], map[])
    {
      db := Db(lower, {}, users, map[], map[]);
    }

    method Create(org: int, user: int) returns (outcome: Outcome)
      modifies this
      ensures (db, outcome) == CreateOrganization(old(db), org, user)
    {
      if org in db.orgs { return Refused(ConstraintViolated); }
      db := db.(orgs := db.orgs + {org});
      db := db.(members := db.members[(org, user) := Membership(Owner, None)]);
      outcome := Done;
    }

    method Add(org: int, email: string, role: Role) returns (outcome: Outcome)
      modifies this
      ensures (db, outcome) == AddOrgMember(old(db), org, email, role)
    {
      var address := db.lower(email);
      if address !in db.users { return Refused(UserNotFound); }
      var key := (org, db.users[address]);
      if key in db.members { return Refused(AlreadyMember); }
      if org !in db.orgs { return Refused(ConstraintViolated); }
      db := db.(members := db.members[key := Membership(role, None)]);
      outcome := Done;
    }

    method CountOwners(org: int) returns (n: nat)
      ensures n == |ActiveOwners(db, org)|
    {
      n := |ActiveOwners(db, org)|;
    }

    method Update(org: int, user: int, role: Role) returns (outcome: Outcome)
      modifies this
      ensures (db, outcome) == UpdateOrgMemberRole(old(db), org, user, role)
    {
      var key := (org, user);
      if key !in db.members { return Refused(NotAMember); }
      if db.members[key].role == Owner && role != Owner {
        var owners := CountOwners(org);
        if owners <= 1 { return Refused(LastOwner); }
      }
      db := db.(members := db.members[key := db.members[key].(role := role)]);
      outcome := Done;
    }

    method Remove(org: int, user: int) returns (outcome: Outcome)
      modifies this
      ensures (db, outcome) == RemoveOrgMember(old(db), org, user)
    {
      var key := (org, user);
      if key !in db.members { return Refused(NotAMember); }
      if db.members[key].role == Owner {
        var owners := CountOwners(org);
        if owners <= 1 { return Refused(LastOwner); }
      }
      db := db.(members := db.members - {key});
      outcome := Done;
    }

    method SetActive(org: int, user: int, active: bool, now: int) returns (outcome: Outcome)
      modifies this
      ensures (db, outcome) == SetMemberActive(old(db), org, user, active, now)
    {
      var key := (org, user);
      if key !in db.members { return Refused(NotAMember); }
      var current := db.members[key];
      if current.deactivatedAt.None? == active { return Unchanged; }
      if !active && current.role == Owner {
        var owners := CountOwners(org);
        if owners <= 1 { return Refused(LastOwner); }
      }
      db := db.(members := db.members[key := current.(deactivatedAt := if active then None else Some(now))]);
      outcome := Done;
    }

    method Invite(org: int, email: string, role: Role, id: int, now: int)
      returns (outcome: Outcome, ghost existing: Option<int>)
      modifies this
      ensures if existing.Some? then existing.value in PendingFor(old(db), org, old(db).lower(email))
              else PendingFor(old(db), org, old(db).lower(email)) == {}
      ensures (db, outcome) == CreateInvitation(old(db), org, email, role, id, existing, now)
    {
      var address := db.lower(email);
      var found := LimitOne(PendingFor(db, org, address));
      existing := found;
      if found.Some? {
        var row := db.invitations[found.value].(role := role, expiresAt := now + INVITATION_TTL_MS);
        db := db.(invitations := db.invitations[found.value := row]);
        outcome := Done;
      } else {
        if id in db.invitations || org !in db.orgs { return Refused(ConstraintViolated), None; }
        var row := Invitation(org, address, role, Pending, now + INVITATION_TTL_MS);
        db := db.(invitations := db.invitations[id := row]);
        outcome := Done;
      }
    }

    method Accept(id: int, user: int, userEmail: string, now: int) returns (outcome: Outcome)
      modifies this
      ensures (db, outcome) == AcceptInvitation(old(db), id, user, userEmail, now)
    {
      if id !in db.invitations { return Refused(NotFound); }
      var inv := db.invitations[id];
      if inv.status == Revoked { return Refused(RevokedLink); }
      if inv.status == Accepted { return Refused(AlreadyAccepted); }
      if inv.status == Expired || inv.expiresAt < now { return Refused(ExpiredLink); }
      if inv.email != db.lower(userEmail) { return Refused(EmailMismatch); }
      if (inv.org, user) !in db.members {
        db := db.(members := db.members[(inv.org, user) := Membership(inv.role, None)]);
      }
      db := db.(invitations := db.invitations[id := inv.(status := Accepted)]);
      outcome := Done;
    }

    method Revoke(org: int, id: int) returns (revoked: bool)
      modifies this
      ensures (db, if revoked then Done else Unchanged) == RevokeInvitation(old(db), org, id)
    {
      revoked := id in db.invitations && db.invitations[id].org == org && db.invitations[id].status == Pending;
      if revoked {
        db := db.(invitations := db.invitations[id := db.invitations[id].(status := Revoked)]);
      }
    }
  }

  // ------------------------------------------------------------------- runs

  datatype Op =
    | OpCreate(org: int, user: int)
    | OpAdd(org: int, email: string, role: Role)
    | OpUpdate(org: int, user: int, role: Role)
    | OpRemove(org: int, user: int)
    | OpSetActive(org: int, user: int, active: bool, now: int)
    | OpInvite(org: int, email: string, role: Role, id: int, existing: Option<int>, now: int)
    | OpAccept(id: int, user: int, userEmail: string, now: int)
    | OpRevoke(org: int, id: int)

  /** The row an invitation refreshes is one the query could have returned. */
  predicate Possible(db: Db, op: Op) {
    op.OpInvite? ==>
      if op.existing.Some? then op.existing.value in PendingFor(db, op.org, db.lower(op.email))
      else PendingFor(db, op.org, db.lower(op.email)) == {}
  }

  function Apply(db: Db, op: Op): (Db, Outcome)
    requires Possible(db, op)
  {
    match op
    case OpCreate(org, user) => CreateOrganization(db, org, user)
    case OpAdd(org, email, role) => AddOrgMember(db, org, email, role)
    case OpUpdate(org, user, role) => UpdateOrgMemberRole(db, org, user, role)
    case OpRemove(org, user) => RemoveOrgMember(db, org, user)
    case OpSetActive(org, user, active, now) => SetMemberActive(db, org, user, active, now)
    case OpInvite(org, email, role, id, existing, now) => CreateInvitation(db, org, email, role, id, existing, now)
    case OpAccept(id, user, userEmail, now) => AcceptInvitation(db, id, user, userEmail, now)
    case OpRevoke(org, id) => RevokeInvitation(db, org, id)
  }

  predicate PossibleRun(db: Db, ops: seq<Op>)
    decreases |ops|
  {
    ops == [] || (Possible(db, ops[0]) && PossibleRun(Apply(db, ops[0]).0, ops[1..]))
  }

  function Run(db: Db, ops: seq<Op>): Db
    requires PossibleRun(db, ops)
    decreases |ops|
  {
    if ops == [] then db else Run(Apply(db, ops[0]).0, ops[1..])
  }

  // -------------------------------------------------------------- invariant

  ghost predicate Governed(db: Db) {
    forall org :: org in db.orgs ==> ActiveOwners(db, org) != {}
  }

  ghost predicate OnePending(db: Db) {
    forall i, j :: i in db.invitations && j in db.invitations && SameAddress(db.invitations[i], db.invitations[j])
      ==> i == j
  }

  predicate SameAddress(a: Invitation, b: Invitation) {
    a.status == Pending && b.status == Pending && a.org == b.org && a.email == b.email
  }

  ghost predicate Inv(db: Db) {
    Governed(db) && OnePending(db)
  }

  /** A row that is an active owner stays one unless the operation is about that row. */
  lemma OthersStay(db: Db, members: map<(int, int), Membership>, key: (int, int))
    requires Governed(db)
    requires forall k :: k != key && k in db.members ==> k in members && members[k] == db.members[k]
    requires key in ActiveOwners(db, key.0) && |ActiveOwners(db, key.0)| <= 1
      ==> key in members && members[key].role == Owner && members[key].deactivatedAt == None
    ensures Governed(db.(members := members))
  {
    var after := db.(members := members);
    forall org | org in db.orgs ensures ActiveOwners(after, org) != {} {
      var owners := ActiveOwners(db, org);
      if k :| k in owners && k != key {
        assert k in ActiveOwners(after, org);
      } else {
        assert owners == {key};
        assert key.0 == org && key in ActiveOwners(after, org);
      }
    }
  }

  lemma MembersKeepGoverned(db: Db, op: Op)
    requires Governed(db) && Possible(db, op)
    requires op.OpAdd? || op.OpUpdate? || op.OpRemove? || op.OpSetActive?
    ensures Governed(Apply(db, op).0)
  {
    match op
    case OpAdd(org, email, role) =>
      if db.lower(email) in db.users {
        OthersStay(db, Apply(db, op).0.members, (org, db.users[db.lower(email)]));
      }
    case OpUpdate(org, user, _) => OthersStay(db, Apply(db, op).0.members, (org, user));
    case OpRemove(org, user) => OthersStay(db, Apply(db, op).0.members, (org, user));
    case OpSetActive(org, user, _, _) => OthersStay(db, Apply(db, op).0.members, (org, user));
    case _ =>
  }

  lemma ApplyKeepsGoverned(db: Db, op: Op)
    requires Governed(db) && Possible(db, op)
    ensures Governed(Apply(db, op).0)
  {
    var after := Apply(db, op).0;
    match op
    case OpCreate(org, user) =>
      OthersStay(db, after.members, (org, user));
      assert (org, user) in db.members[(org, user) := Membership(Owner, None)];
      if org !in db.orgs { assert (org, user) in ActiveOwners(after, org); }
      forall o | o in after.orgs ensures ActiveOwners(after, o) != {} {
        assert ActiveOwners(after, o) == ActiveOwners(db.(members := after.members), o);
      }
    case OpInvite(_, _, _, _, _, _) =>
      forall o | o in after.orgs ensures ActiveOwners(after, o) != {} {
        assert ActiveOwners(after, o) == ActiveOwners(db, o);
      }
    case OpRevoke(_, _) =>
      forall o | o in after.orgs ensures ActiveOwners(after, o) != {} {
        assert ActiveOwners(after, o) == ActiveOwners(db, o);
      }
    case OpAccept(id, user, _, _) =>
      if id in db.invitations {
        OthersStay(db, after.members, (db.invitations[id].org, user));
        forall o | o in after.orgs ensures ActiveOwners(after, o) != {} {
          assert ActiveOwners(after, o) == ActiveOwners(db.(members := after.members), o);
        }
      }
    case _ => MembersKeepGoverned(db, op);
  }

  lemma ApplyKeepsOnePending(db: Db, op: Op)
    requires OnePending(db) && Possible(db, op)
    ensures OnePending(Apply(db, op).0)
  {
    if op.OpInvite? && op.existing == None {
      var after := Apply(db, op).0;
      forall i | i in db.invitations && i in after.invitations && i != op.id && op.id in after.invitations
        ensures !SameAddress(after.invitations[i], after.invitations[op.id])
      {
        assert i !in PendingFor(db, op.org, db.lower(op.email));
      }
    }
  }

  /**
   Every run of membership operations keeps an active owner in every organization
   and at most one pending invitation per organization and address.
   */
  lemma {:induction false} RunKeepsInv(db: Db, ops: seq<Op>)
    requires Inv(db) && PossibleRun(db, ops)
    ensures Inv(Run(db, ops))
    decreases |ops|
  {
    if ops != [] {
      ApplyKeepsGoverned(db, ops[0]);
      ApplyKeepsOnePending(db, ops[0]);
      RunKeepsInv(Apply(db, ops[0]).0, ops[1..]);
    }
  }

  /** The same for demoting: the role of a deactivated owner could change without loss. */
  lemma DemotionRefusalNeededExactly(db: Db, org: int, user: int, role: Role)
    requires Governed(db) && org in db.orgs && UpdateOrgMemberRole(db, org, user, role).1 == Refused(LastOwner)
    ensures var key := (org, user);
      Governed(db.(members := db.members[key := db.members[key].(role := role)]))
      <==> db.members[key].deactivatedAt.Some?
  {
    var key := (org, user);
    var after := db.(members := db.members[key := db.members[key].(role := role)]);
    if db.members[key].deactivatedAt.Some? {
      OthersStay(db, after.members, key);
    } else {
      OnlyOwner(db, key);
      assert forall k :: k in ActiveOwners(after, org) ==> k in ActiveOwners(db, org) && k != key;
      assert ActiveOwners(after, org) == {};
    }
  }

  lemma OnlyOwner(db: Db, key: (int, int))
    requires key in ActiveOwners(db, key.0) && |ActiveOwners(db, key.0)| <= 1
    ensures ActiveOwners(db, key.0) == {key}
  {
    forall k | k in ActiveOwners(db, key.0) ensures k == key {
      if k != key {
        assert |{k, key}| == 2;
        SubsetSize({k, key}, ActiveOwners(db, key.0));
        assert false;
      }
    }
  }

  /**
   The last-owner refusal is what keeps the organization governed exactly when
   the row is active: a deactivated owner is refused too, although removing that
   row would cost no active owner.
   */
  lemma RefusalNeededExactly(db: Db, org: int, user: int)
    requires Governed(db) && org in db.orgs && RemoveOrgMember(db, org, user).1 == Refused(LastOwner)
    ensures Governed(db.(members := db.members - {(org, user)})) <==> db.members[(org, user)].deactivatedAt.Some?
  {
    var key := (org, user);
    var after := db.(members := db.members - {key});
    if db.members[key].deactivatedAt.Some? {
      OthersStay(db, after.members, key);
    } else {
      OnlyOwner(db, key);
      assert forall k :: k in ActiveOwners(after, org) ==> k in ActiveOwners(db, org) && k != key;
      assert ActiveOwners(after, org) == {};
    }
  }

  lemma {:induction false} SubsetSize<T>(a: set<T>, b: set<T>)
    requires a <= b
    ensures |a| <= |b|
  {
    if a != {} {
      var x :| x in a;
      SubsetSize(a - {x}, b - {x});
    }
  }

  // ----------------------------------------------------- rows, one by one

  /** Every membership but this one is as before. */
  ghost predicate OnlyMember(db: Db, after: Db, key: (int, int)) {
    && after.orgs == db.orgs && after.users == db.users && after.invitations == db.invitations
    && forall k :: k != key ==> (k in after.members <==> k in db.members)
                                && (k in db.members ==> after.members[k] == db.members[k])
  }

  /** A new organization has its creator as active owner; an identifier that is taken is refused. */
  lemma CreatorOwns(db: Db, org: int, user: int)
    ensures var (after, outcome) := CreateOrganization(db, org, user);
      && (outcome == Done <==> org !in db.orgs) && (outcome != Done ==> after == db)
      && (outcome == Done ==>
            && (forall o :: o in after.orgs <==> o in db.orgs || o == org)
            && (org, user) in after.members && after.members[(org, user)] == Membership(Owner, None)
            && OnlyMember(db.(orgs := after.orgs), after, (org, user)))
  {
  }

  /** Adding by address works exactly for a known user of an organization that has no such member. */
  lemma AddedByAddress(db: Db, org: int, email: string, role: Role)
    ensures var (after, outcome) := AddOrgMember(db, org, email, role);
      && (outcome == Refused(UserNotFound) <==> forall u :: u in db.users ==> u != db.lower(email))
      && (outcome == Done <==>
            db.lower(email) in db.users && (org, db.users[db.lower(email)]) !in db.members && org in db.orgs)
      && (outcome != Done ==> after == db)
      && (outcome == Done ==>
            var key := (org, db.users[db.lower(email)]);
            key in after.members && after.members[key] == Membership(role, None) && OnlyMember(db, after, key))
  {
  }

  /** Another active owner of the organization. */
  ghost predicate HasOtherOwner(db: Db, key: (int, int)) {
    exists k :: k in db.members && k.0 == key.0 && k != key
                && db.members[k].role == Owner && db.members[k].deactivatedAt.None?
  }

  lemma OtherOwnerCounts(db: Db, key: (int, int))
    requires key in ActiveOwners(db, key.0)
    ensures |ActiveOwners(db, key.0)| <= 1 <==> !HasOtherOwner(db, key)
  {
    var owners := ActiveOwners(db, key.0);
    if HasOtherOwner(db, key) {
      var k :| k in db.members && k.0 == key.0 && k != key
               && db.members[k].role == Owner && db.members[k].deactivatedAt.None?;
      SubsetSize({k, key}, owners);
    } else {
      assert owners == {key};
    }
  }

  /** An active member is suspended, unless it is the last active owner; a suspended one comes back. */
  lemma SuspendedOrRestored(db: Db, org: int, user: int, active: bool, now: int)
    ensures var key := (org, user);
      var (after, outcome) := SetMemberActive(db, org, user, active, now);
      && (outcome == Refused(NotAMember) <==> key !in db.members)
      && (outcome != Done ==> after == db)
      && (key in db.members && db.members[key].deactivatedAt.None? && !active ==>
            outcome == if db.members[key].role == Owner && !HasOtherOwner(db, key) then Refused(LastOwner) else Done)
      && (key in db.members && db.members[key].deactivatedAt.Some? && active ==> outcome == Done)
      && (key in db.members && db.members[key].deactivatedAt.None? == active ==> outcome == Unchanged)
      && (outcome == Done ==>
            && OnlyMember(db, after, key) && key in after.members
            && after.members[key] == Membership(db.members[key].role, if active then None else Some(now)))
  {
    var key := (org, user);
    if key in db.members && db.members[key].role == Owner && db.members[key].deactivatedAt.None? {
      OtherOwnerCounts(db, key);
    }
  }

  /** An active owner keeps the role and the row exactly when there is no other. */
  lemma LastOwnerStays(db: Db, org: int, user: int, role: Role)
    requires (org, user) in db.members && db.members[(org, user)] == Membership(Owner, None)
    ensures RemoveOrgMember(db, org, user).1 == if HasOtherOwner(db, (org, user)) then Done else Refused(LastOwner)
    ensures UpdateOrgMemberRole(db, org, user, role).1 ==
      if role == Owner || HasOtherOwner(db, (org, user)) then Done else Refused(LastOwner)
  {
    OtherOwnerCounts(db, (org, user));
  }

  /** Anyone else can be removed or given a role at once. */
  lemma OthersAreFree(db: Db, org: int, user: int, role: Role)
    requires (org, user) in db.members && db.members[(org, user)].role != Owner
    ensures var (after, outcome) := RemoveOrgMember(db, org, user);
      outcome == Done && OnlyMember(db, after, (org, user)) && (org, user) !in after.members
    ensures var (after, outcome) := UpdateOrgMemberRole(db, org, user, role);
      && outcome == Done && OnlyMember(db, after, (org, user)) && (org, user) in after.members
      && after.members[(org, user)] == db.members[(org, user)].(role := role)
  {
  }

  /** An invitation is for the lower-cased address; a pending one for it is used again, else the new identifier. */
  lemma InvitedOnce(db: Db, org: int, email: string, role: Role, id: int, existing: Option<int>, now: int)
    requires Possible(db, OpInvite(org, email, role, id, existing, now))
    ensures var (after, outcome) := CreateInvitation(db, org, email, role, id, existing, now);
      var link := if existing.Some? then existing.value else id;
      && (outcome == Done <==> existing.Some? || (id !in db.invitations && org in db.orgs))
      && (outcome != Done ==> after == db)
      && (outcome == Done ==>
            && after == db.(invitations := after.invitations) && link in after.invitations
            && after.invitations[link] ==
                 Invitation(org, db.lower(email), role, Pending, now + 7 * 24 * 3600 * 1000)
            && forall i :: i != link ==>
                 (i in after.invitations <==> i in db.invitations)
                 && (i in db.invitations ==> after.invitations[i] == db.invitations[i]))
  {
  }

  // -------------------------------------------------- from invitation to role

  /**
   An invited person who accepts in time becomes an active member with the role of
   the latest invitation; whoever is a member already stays as is. Nobody else's
   membership changes, and the link is used up.
   */
  lemma InviteThenAccept(
    db: Db, org: int, email: string, role: Role, id: int, existing: Option<int>, now: int,
    user: int, userEmail: string, later: int)
    requires Possible(db, OpInvite(org, email, role, id, existing, now))
    requires CreateInvitation(db, org, email, role, id, existing, now).1 == Done
    requires db.lower(userEmail) == db.lower(email) && later <= now + 7 * 24 * 3600 * 1000
    ensures var link := if existing.Some? then existing.value else id;
      var (after, outcome) := AcceptInvitation(
        CreateInvitation(db, org, email, role, id, existing, now).0, link, user, userEmail, later);
      && outcome == Done
      && (org, user) in after.members
      && ((org, user) !in db.members ==> after.members[(org, user)] == Membership(role, None))
      && ((org, user) in db.members ==> after.members[(org, user)] == db.members[(org, user)])
      && (forall k :: k != (org, user) ==> (k in after.members <==> k in db.members))
      && (forall k :: k != (org, user) && k in db.members ==> after.members[k] == db.members[k])
      && link in after.invitations && after.invitations[link].status == Accepted
      && after.users == db.users && after.orgs == db.orgs
  {
  }

  /** Too late, or with another address, the link gives nothing. */
  lemma StrangersAndLatecomersRefused(
    db: Db, org: int, email: string, role: Role, id: int, existing: Option<int>, now: int,
    user: int, userEmail: string, later: int)
    requires Possible(db, OpInvite(org, email, role, id, existing, now))
    requires CreateInvitation(db, org, email, role, id, existing, now).1 == Done
    requires db.lower(userEmail) != db.lower(email) || later > now + 7 * 24 * 3600 * 1000
    ensures var link := if existing.Some? then existing.value else id;
      var invited := CreateInvitation(db, org, email, role, id, existing, now).0;
      AcceptInvitation(invited, link, user, userEmail, later) ==
        (invited, Refused(if later > now + 7 * 24 * 3600 * 1000 then ExpiredLink else EmailMismatch))
  {
  }

  // ----------------------------------------------------- acceptance is once

  function Acceptances(db: Db, ops: seq<Op>, id: int): nat
    requires PossibleRun(db, ops)
    decreases |ops|
  {
    if ops == [] then 0
    else
      (if ops[0].OpAccept? && ops[0].id == id && Apply(db, ops[0]).1 == Done then 1 else 0)
      + Acceptances(Apply(db, ops[0]).0, ops[1..], id)
  }

  predicate Settled(db: Db, id: int) {
    id in db.invitations && db.invitations[id].status != Pending
  }

  /** A link that was accepted or revoked never changes again and never works again. */
  lemma SettledStays(db: Db, op: Op, id: int)
    requires Possible(db, op) && Settled(db, id)
    requires db.invitations[id].status in {Accepted, Revoked}
    ensures id in Apply(db, op).0.invitations && Apply(db, op).0.invitations[id] == db.invitations[id]
    ensures op.OpAccept? && op.id == id ==> Apply(db, op).1.Refused?
  {
  }

  lemma {:induction false} NoneOnceSettled(db: Db, ops: seq<Op>, id: int)
    requires PossibleRun(db, ops) && Settled(db, id) && db.invitations[id].status in {Accepted, Revoked}
    ensures Acceptances(db, ops, id) == 0
    decreases |ops|
  {
    if ops != [] {
      SettledStays(db, ops[0], id);
      NoneOnceSettled(Apply(db, ops[0]).0, ops[1..], id);
    }
  }

  lemma {:induction false} AcceptedAtMostOnce(db: Db, ops: seq<Op>, id: int)
    requires PossibleRun(db, ops)
    ensures Acceptances(db, ops, id) <= 1
    decreases |ops|
  {
    if ops != [] {
      var after := Apply(db, ops[0]).0;
      if ops[0].OpAccept? && ops[0].id == id && Apply(db, ops[0]).1 == Done {
        NoneOnceSettled(after, ops[1..], id);
      } else {
        AcceptedAtMostOnce(after, ops[1..], id);
      }
    }
  }
}
