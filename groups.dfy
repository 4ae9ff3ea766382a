/** The group membership engine (controllers/groupController.js).

    A group keeps three id lists: `managers`, `members` and `pendingJoinRequests`
    (here `pending`). Every handler loads one group, checks the acting user's
    standing, changes the lists with `push`, `pull` or `$addToSet`, and saves. The
    pure functions below state each transition on one group value; the class
    `GroupStore` holds the groups collection and applies them in place. */
module Groups {
  import opened Base
  import opened Text
  import opened Lists

  /** The image a group gets when none is given (models/Group.js). */
  const DefaultGroupImage := "https://cdn.pixabay.com/photo/2017/11/10/05/46/group-2935521_1280.png"

  datatype Group = Group(
    name: string,
    description: string,
    image: string,
    creator: UserId,
    managers: seq<UserId>,
    members: seq<UserId>,
    pending: seq<UserId>)

  const NameTaken := Conflict
  const AlreadyMember := BadRequest("Already a member")
  const RequestAlreadySent := BadRequest("Request already sent")
  const NoPendingRequest := BadRequest("No pending request")
  const NoSuchRequest := BadRequest("No such request")
  const InvalidRole := BadRequest("Invalid role")
  const NotAManager := Forbidden("Not a manager")
  const NotSelfOrManager := Forbidden("Forbidden")
  const OnlyManagersUpdate := Forbidden("Only managers can update group")
  const OnlyManagersDelete := Forbidden("Only managers can delete")

  /** What every operation keeps true of a group: it has a member, and every manager
      is a member. (A group may be left with no manager at all, see
      DemotionCanLeaveNoManager.) */
  predicate WellFormed(g: Group) {
    g.members != [] && forall m :: m in g.managers ==> m in g.members
  }

  /** Only the three lists change; name, description, image and creator stay. */
  predicate SameProfile(g: Group, h: Group) {
    g.name == h.name && g.description == h.description && g.image == h.image && g.creator == h.creator
  }

  /** `createGroup`, once the name is known to be free: the creator is the only
      manager and the only member, nobody is pending, and the image is the one given
      unless it is blank. */
  function NewGroup(name: string, description: string, image: Option<string>, creator: UserId): (g: Group)
    ensures g.creator == creator && g.managers == [creator] && g.members == [creator] && g.pending == []
    ensures g.name == name && g.description == description
    ensures g.image == if HasText(image) then image.value else DefaultGroupImage
    ensures WellFormed(g)
  {
    Group(name, description, if HasText(image) then image.value else DefaultGroupImage,
          creator, [creator], [creator], [])
  }

  /** `requestToJoin`: refused to a member and to a user already pending; otherwise
      exactly that user is appended to the pending requests and nothing else changes. */
  function RequestJoin(g: Group, u: UserId): (r: Result<Group>)
    ensures u in g.members ==> r == Err(AlreadyMember)
    ensures u !in g.members && u in g.pending ==> r == Err(RequestAlreadySent)
    ensures r.Ok? <==> u !in g.members && u !in g.pending
    ensures r.Ok? ==> && r.value.pending == g.pending + [u]
                      && r.value.members == g.members && r.value.managers == g.managers
                      && SameProfile(g, r.value)
    ensures r.Ok? && WellFormed(g) ==> WellFormed(r.value)
  {
    if u in g.members then Err(AlreadyMember)
    else if u in g.pending then Err(RequestAlreadySent)
    else Ok(g.(pending := g.pending + [u]))
  }

  /** `cancelJoinRequest`: refused unless the user is pending; otherwise every pending
      entry of that user goes and nothing else changes. */
  function CancelJoin(g: Group, u: UserId): (r: Result<Group>)
    ensures r.Err? <==> u !in g.pending
    ensures r.Err? ==> r.error == NoPendingRequest
    ensures r.Ok? ==> && u !in r.value.pending
                      && (forall v :: v != u ==> (v in r.value.pending <==> v in g.pending))
                      && r.value.members == g.members && r.value.managers == g.managers
                      && SameProfile(g, r.value)
    ensures r.Ok? && WellFormed(g) ==> WellFormed(r.value)
  {
    if u !in g.pending then Err(NoPendingRequest)
    else Ok(g.(pending := Pull(g.pending, u)))
  }

  /** `respondJoinRequest`: only a manager may answer (Forbidden otherwise), and only
      a pending request (BadRequest otherwise). The target is then no longer pending,
      and is appended to the members exactly when the request is accepted; the
      managers do not change. */
  function RespondJoin(g: Group, actor: UserId, target: UserId, accept: bool): (r: Result<Group>)
    ensures actor !in g.managers ==> r == Err(NotAManager)
    ensures actor in g.managers && target !in g.pending ==> r == Err(NoSuchRequest)
    ensures r.Ok? <==> actor in g.managers && target in g.pending
    ensures r.Ok? ==> && target !in r.value.pending
                      && (forall v :: v != target ==> (v in r.value.pending <==> v in g.pending))
                      && r.value.members == (if accept then g.members + [target] else g.members)
                      && r.value.managers == g.managers
                      && SameProfile(g, r.value)
    ensures r.Ok? && WellFormed(g) ==> WellFormed(r.value)
  {
    if actor !in g.managers then Err(NotAManager)
    else if target !in g.pending then Err(NoSuchRequest)
    else
      var g1 := g.(pending := Pull(g.pending, target));
      Ok(if accept then g1.(members := g1.members + [target]) else g1)
  }

  /** The two roles `updateMemberRole` accepts. */
  datatype Role = Admin | User

  /** `['admin', 'user'].includes(role)`; any other value is answered "Invalid role". */
  function ParseRole(role: string): (r: Option<Role>)
    ensures r == Some(Admin) <==> role == "admin"
    ensures r == Some(User) <==> role == "user"
  {
    if role == "admin" then Some(Admin) else if role == "user" then Some(User) else None
  }

  /** `updateMemberRole`, for a manager acting: the target is a member afterwards,
      added once if absent and otherwise left as listed; `Admin` makes the target a
      manager the same way, `User` removes every manager entry of the target. The
      pending requests are untouched, so a pending user who is promoted stays pending. */
  function UpdateRole(g: Group, actor: UserId, target: UserId, role: Role): (r: Result<Group>)
    ensures r.Err? <==> actor !in g.managers
    ensures r.Err? ==> r.error == NotAManager
    ensures r.Ok? ==> && target in r.value.members
                      && multiset(r.value.members)[target] == (if target in g.members then multiset(g.members)[target] else 1)
                      && (forall v :: v != target ==> multiset(r.value.members)[v] == multiset(g.members)[v])
                      && (role == Admin ==> target in r.value.managers)
                      && (role == User ==> target !in r.value.managers)
                      && (forall v :: v != target ==> (v in r.value.managers <==> v in g.managers))
                      && r.value.pending == g.pending
                      && SameProfile(g, r.value)
    ensures r.Ok? ==> && r.value.members == AddToSet(g.members, target)
                      && r.value.managers == if role == Admin then AddToSet(g.managers, target) else Pull(g.managers, target)
    ensures r.Ok? && WellFormed(g) ==> WellFormed(r.value)
  {
    if actor !in g.managers then Err(NotAManager)
    else
      var members := AddToSet(g.members, target);
      var managers := if role == Admin then AddToSet(g.managers, target) else Pull(g.managers, target);
      Ok(g.(members := members, managers := managers))
  }

  /** How `leaveOrRemove` ends: the group is deleted, or it stays with new lists. */
  datatype Departure = GroupDeleted | Remaining(group: Group)

  /** A member leaving on their own (the `isSelf` branch of `leaveOrRemove`), with the
      deletion test corrected (see SelfLeaveAsWritten): the group is deleted when the
      leaver is a member and nobody else is. Otherwise, if the leaver is the only
      manager, the first other member in list order becomes the only manager; then
      the leaver is pulled from members and managers. Pending requests stay. */
  function SelfLeave(g: Group, u: UserId): (r: Departure)
    ensures r == GroupDeleted <==> u in g.members && forall k :: 0 <= k < |g.members| ==> g.members[k] == u
    ensures u !in g.members ==> r.Remaining?
    ensures r.Remaining? ==> && u !in r.group.members && u !in r.group.managers
                             && r.group.members == Pull(g.members, u)
                             && r.group.pending == g.pending && SameProfile(g, r.group)
    ensures r.Remaining? && g.managers == [u] && u in g.members ==>
              r.group.managers == [FirstOther(g.members, u).value]
    ensures r.Remaining? && g.managers != [u] ==> r.group.managers == Pull(g.managers, u)
    ensures r.Remaining? && WellFormed(g) ==> WellFormed(r.group)
  {
    var next := FirstOther(g.members, u);
    if u in g.members && next.None? then GroupDeleted
    else
      var managers := if g.managers == [u] && next.Some? then [next.value] else g.managers;
      var h := g.(members := Pull(g.members, u), managers := Pull(managers, u));
      assert WellFormed(g) ==> WellFormed(h) by {
        if WellFormed(g) {
          if u in g.members {
            assert next.value in h.members;
          } else {
            assert g.managers != [u];
            assert h.members == g.members;
          }
        }
      }
      Remaining(h)
  }

  /** The `isSelf` branch of `leaveOrRemove` exactly as written (lines 183-197): the
      group is deleted when `members` has one entry, whoever that entry is; and when
      the leaver is the only manager and no entry of `members` is anybody else, `find`
      yields `undefined` and `new ObjectId(undefined)` installs a newly generated id
      (`generated`) as the only manager. */
  function SelfLeaveAsWritten(g: Group, u: UserId, generated: UserId): (r: Departure)
    ensures r == GroupDeleted <==> |g.members| == 1
    ensures r.Remaining? ==> && u !in r.group.members && r.group.members == Pull(g.members, u)
                             && r.group.pending == g.pending && SameProfile(g, r.group)
    ensures r.Remaining? && g.managers == [u] && FirstOther(g.members, u).Some? ==>
              r.group.managers == [FirstOther(g.members, u).value]
    ensures r.Remaining? && g.managers == [u] && FirstOther(g.members, u).None? && generated != u ==>
              r.group.managers == [generated]
    ensures r.Remaining? && g.managers != [u] ==> r.group.managers == Pull(g.managers, u)
  {
    if |g.members| == 1 then GroupDeleted
    else
      var managers :=
        if g.managers == [u] then
          [match FirstOther(g.members, u) case Some(m) => m case None => generated]
        else g.managers;
      Remaining(g.(members := Pull(g.members, u), managers := Pull(managers, u)))
  }

  /** `leaveOrRemove`: only the user themself or a manager may act (Forbidden
      otherwise). A user leaving on their own follows SelfLeave. A manager removing
      someone else pulls that user from managers and members; pending requests stay. */
  function Leave(g: Group, actor: UserId, target: UserId): (r: Result<Departure>)
    ensures r.Err? <==> actor != target && actor !in g.managers
    ensures r.Err? ==> r.error == NotSelfOrManager
    ensures r.Ok? && actor == target ==> r.value == SelfLeave(g, actor)
    ensures r.Ok? && actor != target ==>
              && r.value.Remaining?
              && r.value.group.managers == Pull(g.managers, target)
              && r.value.group.members == Pull(g.members, target)
              && target !in r.value.group.members && target !in r.value.group.managers
              && r.value.group.pending == g.pending && SameProfile(g, r.value.group)
    ensures r.Ok? && r.value.Remaining? && WellFormed(g) ==> WellFormed(r.value.group)
  {
    if actor != target && actor !in g.managers then Err(NotSelfOrManager)
    else if actor == target then Ok(SelfLeave(g, actor))
    else
      var h := g.(managers := Pull(g.managers, target), members := Pull(g.members, target));
      assert WellFormed(g) ==> actor in h.members;
      Ok(Remaining(h))
  }

  /** `leaveOrRemove` exactly as written: Leave, with its self-leave branch replaced by
      SelfLeaveAsWritten. In particular a self-leave from a group whose `members` has
      one entry deletes the group. */
  function LeaveAsWritten(g: Group, actor: UserId, target: UserId, generated: UserId): (r: Result<Departure>)
    ensures r.Err? <==> actor != target && actor !in g.managers
    ensures r.Err? ==> r.error == NotSelfOrManager
    ensures r.Ok? && actor == target ==> r.value == SelfLeaveAsWritten(g, actor, generated)
    ensures actor == target && |g.members| == 1 ==> r == Ok(GroupDeleted)
    ensures actor != target ==> r == Leave(g, actor, target)
  {
    if actor != target && actor !in g.managers then Err(NotSelfOrManager)
    else if actor == target then Ok(SelfLeaveAsWritten(g, actor, generated))
    else Leave(g, actor, target)
  }

  /** The two findings are the only departures from the code as written: when the
      leaver is a member and no member is listed twice, the corrected Leave gives
      what the code gives. */
  lemma LeaveAgreesWithCodeOnDistinctMembers(g: Group, actor: UserId, target: UserId, generated: UserId)
    requires Distinct(g.members)
    requires actor == target ==> actor in g.members
    ensures Leave(g, actor, target) == LeaveAsWritten(g, actor, target, generated)
  {
    if actor == target {
      var u := actor;
      var next := FirstOther(g.members, u);
      if |g.members| == 1 {
        assert g.members == [u];
        assert forall k :: 0 <= k < |g.members| ==> g.members[k] == u;
      } else {
        var k :| 0 <= k < |g.members| && g.members[k] == u;
        var k' := if k == 0 then 1 else 0;
        assert g.members[k'] != u;
        assert next.Some?;
      }
    }
  }

  /** `updateGroup`, for a manager acting: a name or description that is missing or
      empty keeps the old one; the image is replaced only by a non-blank value; the
      lists do not change. */
  function Edit(g: Group, actor: UserId, name: Option<string>, description: Option<string>,
                image: Option<string>): (r: Result<Group>)
    ensures r.Err? <==> actor !in g.managers
    ensures r.Err? ==> r.error == OnlyManagersUpdate
    ensures r.Ok? ==> && r.value.name == (if Truthy(name) then name.value else g.name)
                      && r.value.description == (if Truthy(description) then description.value else g.description)
                      && r.value.image == (if HasText(image) then image.value else g.image)
                      && r.value.creator == g.creator
                      && r.value.managers == g.managers && r.value.members == g.members
                      && r.value.pending == g.pending
  {
    if actor !in g.managers then Err(OnlyManagersUpdate)
    else
      Ok(g.(name := if Truthy(name) then name.value else g.name,
            description := if Truthy(description) then description.value else g.description,
            image := if HasText(image) then image.value else g.image))
  }

  /** The `isMember` and `isPending` flags `listAllGroups` attaches to each group. */
  datatype Standing = Standing(isMember: bool, isPending: bool)

  function StandingIn(g: Group, me: UserId): (s: Standing)
    ensures s.isMember <==> me in g.members
    ensures s.isPending <==> me in g.pending
  {
    Standing(me in g.members, me in g.pending)
  }

  // ---------------------------------------------------------------------------
  // Properties across operations
  // ---------------------------------------------------------------------------

  /** Cancelling a join request undoes it: the group is as it was before the request. */
  lemma CancelUndoesRequest(g: Group, u: UserId)
    requires RequestJoin(g, u).Ok?
    ensures CancelJoin(RequestJoin(g, u).value, u) == Ok(g)
  {
    PullPushed(g.pending, u);
  }

  /** The life of a (group, user) pair: not related, then pending after a request,
      then a member and no longer pending once a manager accepts; a second request is
      refused while pending and after joining. */
  lemma JoinLifecycle(g: Group, m: UserId, u: UserId)
    requires WellFormed(g) && m in g.managers && u !in g.members && u !in g.pending
    ensures var g1 := RequestJoin(g, u);
            && g1.Ok? && StandingIn(g1.value, u) == Standing(false, true)
            && RequestJoin(g1.value, u) == Err(RequestAlreadySent)
            && var g2 := RespondJoin(g1.value, m, u, true);
               && g2.Ok? && StandingIn(g2.value, u) == Standing(true, false)
               && RequestJoin(g2.value, u) == Err(AlreadyMember)
               && WellFormed(g2.value)
  {
  }

  /** Demoting the only manager to `user` is accepted and leaves the group with no
      manager, after which nobody can answer requests, change roles, remove members,
      edit or delete it. */
  lemma DemotionCanLeaveNoManager(c: UserId)
    ensures var g := NewGroup("g", "d", None, c);
            var h := UpdateRole(g, c, c, User);
            h.Ok? && h.value.managers == [] && UpdateRole(h.value, c, c, Admin) == Err(NotAManager)
  {
  }

  /** Promoting a user who is waiting to join does not clear the request, and
      accepting that request afterwards lists the user twice among the members. */
  lemma PromotedThenAcceptedIsListedTwice(c: UserId, v: UserId)
    requires c != v
    ensures var g0 := NewGroup("g", "d", None, c);
            var g1 := RequestJoin(g0, v).value;
            var g2 := UpdateRole(g1, c, v, Admin).value;
            var g3 := RespondJoin(g2, c, v, true);
            && v in g2.pending && v in g2.members
            && g3.Ok? && g3.value.members == [c, v, v] && g3.value.managers == [c, v]
  {
    var g0 := NewGroup("g", "d", None, c);
    assert g0 == Group("g", "d", DefaultGroupImage, c, [c], [c], []);
    var g1 := g0.(pending := [v]);
    assert v !in g0.members && v !in g0.pending && g0.pending + [v] == [v];
    assert RequestJoin(g0, v) == Ok(g1);
    assert AddToSet([c], v) == [c, v];
    var g2 := g1.(members := [c, v], managers := [c, v]);
    assert UpdateRole(g1, c, v, Admin) == Ok(g2);
    assert Pull([v], v) == [];
    assert c in g2.managers && v in g2.pending && g2.members + [v] == [c, v, v];
    assert RespondJoin(g2, c, v, true) == Ok(g2.(pending := [], members := [c, v, v]));
  }

  /** Finding: as written, a user who is not a member can delete a group that has a
      single member, by "leaving" it; the corrected SelfLeave keeps the group. */
  lemma NonMemberDeletesSingleMemberGroup(c: UserId, x: UserId, generated: UserId)
    requires x != c
    ensures var g := NewGroup("g", "d", None, c);
            && Leave(g, x, x).Ok?
            && SelfLeaveAsWritten(g, x, generated) == GroupDeleted
            && SelfLeave(g, x) == Remaining(g)
  {
    var g := NewGroup("g", "d", None, c);
    assert Pull([c], x) == [c];
  }

  /** The first step of the second finding: in a group whose members list reads
      `[c, v, v]` (reachable, see PromotedThenAcceptedIsListedTwice), the manager `c`
      leaves and `v` becomes the only manager, still listed twice as a member. The
      code as written and the corrected rule agree on this step. */
  lemma ManagerLeavesDuplicatedMember(c: UserId, v: UserId, generated: UserId)
    requires c != v
    ensures var g3 := Group("g", "d", DefaultGroupImage, c, [c, v], [c, v, v], []);
            var g4 := SelfLeaveAsWritten(g3, c, generated);
            && g4.Remaining? && g4.group.members == [v, v] && g4.group.managers == [v]
            && WellFormed(g4.group)
            && SelfLeave(g3, c) == g4
  {
    assert FirstOther([c, v, v], c) == Some(v);
    assert Pull([v, v], c) == [v, v];
    assert Pull([c, v, v], c) == [v, v];
    assert Pull([c, v], c) == [v];
  }

  /** Finding: as written, when the only manager leaves and every other entry of
      `members` is the leaver too (the group ManagerLeavesDuplicatedMember ends
      with), the group survives with no member and a generated id, an id that is
      nobody's, as its only manager; the corrected SelfLeave deletes the group. */
  lemma LastDuplicatedMemberLeavesPhantomManager(c: UserId, v: UserId, generated: UserId)
    requires generated != v
    ensures var g := Group("g", "d", DefaultGroupImage, c, [v], [v, v], []);
            var asWritten := SelfLeaveAsWritten(g, v, generated);
            && WellFormed(g)
            && asWritten.Remaining?
            && asWritten.group.members == [] && asWritten.group.managers == [generated]
            && !WellFormed(asWritten.group)
            && SelfLeave(g, v) == GroupDeleted
  {
    assert FirstOther([v, v], v) == None;
    assert Pull([v], v) == [];
    assert Pull([v, v], v) == [];
    assert Pull([generated], v) == [generated];
  }

  // ---------------------------------------------------------------------------
  // The groups collection
  // ---------------------------------------------------------------------------

  /** No two groups share a name (the unique index on `name`). */
  predicate UniqueNames(groups: map<GroupId, Group>) {
    forall a, b :: a in groups && b in groups && a != b ==> groups[a].name != groups[b].name
  }

  predicate NameInUse(groups: map<GroupId, Group>, name: string) {
    exists id :: id in groups && groups[id].name == name
  }

  /** Replacing a group by one with the same name, or by one with a name no other
      group has, keeps the names unique. */
  lemma ReplaceKeepsNamesUnique(groups: map<GroupId, Group>, gid: GroupId, h: Group)
    requires UniqueNames(groups) && gid in groups
    requires h.name == groups[gid].name || !NameInUse(groups - {gid}, h.name)
    ensures UniqueNames(groups[gid := h])
  {
    var m := groups[gid := h];
    forall a, b | a in m && b in m && a != b ensures m[a].name != m[b].name {
      if a == gid {
        assert b in groups - {gid};
      } else if b == gid {
        assert a in groups - {gid};
      }
    }
  }

  class GroupStore {
    var groups: map<GroupId, Group>
    var nextId: nat

    ghost predicate Valid()
      reads this
    {
      && (forall id :: id in groups ==> id < nextId)
      && (forall id :: id in groups ==> WellFormed(groups[id]))
      && UniqueNames(groups)
    }

    constructor ()
      ensures Valid() && groups == map[]
    {
      groups := map[];
      nextId := 0;
    }

    /** `createGroup`: Conflict when a group already has this exact name; otherwise a
        new group under a new id, created by and containing only the acting user. */
    method CreateGroup(actor: UserId, name: Option<string>, description: string, image: Option<string>)
      returns (r: Result<GroupId>)
      requires Valid()
      modifies this
      ensures Valid()
      ensures name.None? && old(groups) != map[] ==> r == Err(NameTaken) && groups == old(groups)
      ensures name.None? && old(groups) == map[] ==> r == Err(SchemaRejected) && groups == old(groups)
      ensures name.Some? && NameInUse(old(groups), name.value) ==> r == Err(NameTaken) && groups == old(groups)
      ensures name.Some? && !NameInUse(old(groups), name.value) ==>
                && r == Ok(old(nextId)) && old(nextId) !in old(groups)
                && groups == old(groups)[old(nextId) := NewGroup(name.value, description, image, actor)]
    {
      if name.None? {
        // `findOne({ name: undefined })` has no filter left and finds any group;
        // with none, the schema refuses a group without a name.
        if groups != map[] {
          return Err(NameTaken);
        }
        return Err(SchemaRejected);
      }
      if exists id :: id in groups && groups[id].name == name.value {
        return Err(NameTaken);
      }
      var id := nextId;
      groups := groups[id := NewGroup(name.value, description, image, actor)];
      nextId := nextId + 1;
      r := Ok(id);
    }

    /** `requestToJoin` on the group `gid`. */
    method RequestToJoin(actor: UserId, gid: GroupId) returns (r: Result<Group>)
      requires Valid()
      modifies this
      ensures Valid() && nextId == old(nextId)
      ensures gid !in old(groups) ==> r == Err(NotFound)
      ensures gid in old(groups) ==> r == RequestJoin(old(groups)[gid], actor)
      ensures groups == if r.Ok? then old(groups)[gid := r.value] else old(groups)
    {
      if gid !in groups {
        return Err(NotFound);
      }
      var g := groups[gid];
      if actor in g.members {
        return Err(AlreadyMember);
      }
      if actor in g.pending {
        return Err(RequestAlreadySent);
      }
      g := g.(pending := g.pending + [actor]);
      groups := groups[gid := g];
      r := Ok(g);
    }

    /** `cancelJoinRequest` on the group `gid`. */
    method CancelJoinRequest(actor: UserId, gid: GroupId) returns (r: Result<Group>)
      requires Valid()
      modifies this
      ensures Valid() && nextId == old(nextId)
      ensures gid !in old(groups) ==> r == Err(NotFound)
      ensures gid in old(groups) ==> r == CancelJoin(old(groups)[gid], actor)
      ensures groups == if r.Ok? then old(groups)[gid := r.value] else old(groups)
    {
      if gid !in groups {
        return Err(NotFound);
      }
      var g := groups[gid];
      if actor !in g.pending {
        return Err(NoPendingRequest);
      }
      g := g.(pending := Pull(g.pending, actor));
      groups := groups[gid := g];
      r := Ok(g);
    }

    /** `respondJoinRequest` on the group `gid`. */
    method RespondJoinRequest(actor: UserId, gid: GroupId, target: UserId, accept: bool)
      returns (r: Result<Group>)
      requires Valid()
      modifies this
      ensures Valid() && nextId == old(nextId)
      ensures gid !in old(groups) ==> r == Err(NotFound)
      ensures gid in old(groups) ==> r == RespondJoin(old(groups)[gid], actor, target, accept)
      ensures groups == if r.Ok? then old(groups)[gid := r.value] else old(groups)
    {
      if gid !in groups {
        return Err(NotFound);
      }
      var g := groups[gid];
      if actor !in g.managers {
        return Err(NotAManager);
      }
      if target !in g.pending {
        return Err(NoSuchRequest);
      }
      g := g.(pending := Pull(g.pending, target));
      if accept {
        g := g.(members := g.members + [target]);
      }
      groups := groups[gid := g];
      r := Ok(g);
    }

    /** `updateMemberRole`: the role is checked before the group is even looked up. */
    method UpdateMemberRole(actor: UserId, gid: GroupId, target: UserId, role: string)
      returns (r: Result<Group>)
      requires Valid()
      modifies this
      ensures Valid() && nextId == old(nextId)
      ensures ParseRole(role).None? ==> r == Err(InvalidRole)
      ensures ParseRole(role).Some? && gid !in old(groups) ==> r == Err(NotFound)
      ensures ParseRole(role).Some? && gid in old(groups) ==>
                r == UpdateRole(old(groups)[gid], actor, target, ParseRole(role).value)
      ensures groups == if r.Ok? then old(groups)[gid := r.value] else old(groups)
    {
      var parsed := ParseRole(role);
      if parsed.None? {
        return Err(InvalidRole);
      }
      if gid !in groups {
        return Err(NotFound);
      }
      var g := groups[gid];
      if actor !in g.managers {
        return Err(NotAManager);
      }
      g := g.(members := AddToSet(g.members, target));
      if parsed.value == Admin {
        g := g.(managers := AddToSet(g.managers, target));
      } else {
        g := g.(managers := Pull(g.managers, target));
      }
      assert Ok(g) == UpdateRole(groups[gid], actor, target, parsed.value);
      ReplaceKeepsNamesUnique(groups, gid, g);
      groups := groups[gid := g];
      r := Ok(g);
    }

    /** `leaveOrRemove`: a departure that empties the group deletes it. */
    method LeaveOrRemove(actor: UserId, gid: GroupId, target: UserId) returns (r: Result<Departure>)
      requires Valid()
      modifies this
      ensures Valid() && nextId == old(nextId)
      ensures gid !in old(groups) ==> r == Err(NotFound)
      ensures gid in old(groups) ==> r == Leave(old(groups)[gid], actor, target)
      ensures groups == if r.Ok? && r.value.GroupDeleted? then old(groups) - {gid}
                        else if r.Ok? then old(groups)[gid := r.value.group]
                        else old(groups)
    {
      if gid !in groups {
        return Err(NotFound);
      }
      r := Leave(groups[gid], actor, target);
      if r.Err? {
        return;
      }
      match r.value
      case GroupDeleted =>
        groups := groups - {gid};
      case Remaining(h) =>
        ReplaceKeepsNamesUnique(groups, gid, h);
        groups := groups[gid := h];
    }

    /** `updateGroup`: saving a name that another group has is refused by the unique
        index on `name`, answered here as Conflict. */
    method UpdateGroup(actor: UserId, gid: GroupId, name: Option<string>, description: Option<string>,
                       image: Option<string>) returns (r: Result<Group>)
      requires Valid()
      modifies this
      ensures Valid() && nextId == old(nextId)
      ensures gid !in old(groups) ==> r == Err(NotFound)
      ensures gid in old(groups) && Edit(old(groups)[gid], actor, name, description, image).Err? ==>
                r == Edit(old(groups)[gid], actor, name, description, image)
      ensures gid in old(groups) && Edit(old(groups)[gid], actor, name, description, image).Ok? ==>
                var h := Edit(old(groups)[gid], actor, name, description, image).value;
                r == if NameInUse(old(groups) - {gid}, h.name) then Err(NameTaken) else Ok(h)
      ensures groups == if r.Ok? then old(groups)[gid := r.value] else old(groups)
    {
      if gid !in groups {
        return Err(NotFound);
      }
      var g := groups[gid];
      if actor !in g.managers {
        return Err(OnlyManagersUpdate);
      }
      if Truthy(name) {
        g := g.(name := name.value);
      }
      if Truthy(description) {
        g := g.(description := description.value);
      }
      if HasText(image) {
        g := g.(image := image.value);
      }
      if NameInUse(groups - {gid}, g.name) {
        return Err(NameTaken);
      }
      ReplaceKeepsNamesUnique(groups, gid, g);
      groups := groups[gid := g];
      r := Ok(g);
    }

    /** `deleteGroup`: a manager deletes the group record, and nothing else; the
        group's posts stay in the posts collection. */
    method DeleteGroup(actor: UserId, gid: GroupId) returns (r: Result<()>)
      requires Valid()
      modifies this
      ensures Valid() && nextId == old(nextId)
      ensures gid !in old(groups) ==> r == Err(NotFound)
      ensures gid in old(groups) ==> (r.Ok? <==> actor in old(groups)[gid].managers)
      ensures gid in old(groups) && actor !in old(groups)[gid].managers ==> r == Err(OnlyManagersDelete)
      ensures groups == if r.Ok? then old(groups) - {gid} else old(groups)
    {
      if gid !in groups {
        return Err(NotFound);
      }
      if actor !in groups[gid].managers {
        return Err(OnlyManagersDelete);
      }
      groups := groups - {gid};
      r := Ok(());
    }
  }
}
