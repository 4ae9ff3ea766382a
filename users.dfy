/** The friendship ledger, the profile access rule and the profile update rules
    (controllers/userController.js).

    Each user record keeps three id lists: `friends`, `pendingSentRequests` (here
    `pendingSent`) and `pendingReceivedRequests` (here `pendingReceived`). A friendship
    handler loads two records, changes lists on both, and saves both; the model applies
    the two records' changes one after the other to the users map, as one step. */
module Users {
  import opened Base
  import opened Text
  import opened Lists

  datatype User = User(
    username: string,
    email: string,
    phone: Option<string>,
    profileImage: string,
    friends: seq<UserId>,
    pendingSent: seq<UserId>,
    pendingReceived: seq<UserId>)

  type UserMap = map<UserId, User>

  const AlreadySent := BadRequest("Friend request already sent")
  const NoRequestFromUser := BadRequest("No pending friend request from this user")
  const NotAFriend := Forbidden("Access denied: Not a friend")
  const UsernameCannotBeEmpty := BadRequest("Username cannot be empty")
  const PhoneNotTenDigits := BadRequest("Phone number must be exactly 10 digits")
  const PhoneInUse := BadRequest("This phone number is already in use by another user")

  /** The ledger's two symmetries: a request is listed as sent by one user exactly when
      it is listed as received by the other, and friendship goes both ways. */
  predicate Ledger(users: UserMap) {
    && (forall a, b :: a in users && b in users ==>
          (b in users[a].pendingSent <==> a in users[b].pendingReceived))
    && (forall a, b :: a in users && b in users ==>
          (b in users[a].friends <==> a in users[b].friends))
  }

  /** Only the records of `a` and `b` differ, and no user is added or removed. */
  predicate OnlyTouches(users: UserMap, after: UserMap, a: UserId, b: UserId) {
    after.Keys == users.Keys && forall id :: id in users && id != a && id != b ==> after[id] == users[id]
  }

  /** The name, email, phone and image of a user; the friendship operations keep them. */
  predicate SameProfile(u: User, v: User) {
    u.username == v.username && u.email == v.email && u.phone == v.phone && u.profileImage == v.profileImage
  }

  // ---------------------------------------------------------------------------
  // The list updates the friendship handlers make
  // ---------------------------------------------------------------------------

  /** Making `s` and `t` friends out of a request from `t` to `s`: `s` pushes `t` to its
      friends, `t` pushes `s`, `t`'s sent list and `s`'s received list lose the other.
      Both the crossing request of `sendFriendRequest` and `acceptFriendRequest` do this. */
  function Befriend(users: UserMap, s: UserId, t: UserId): (after: UserMap)
    requires s in users && t in users
    ensures OnlyTouches(users, after, s, t)
    ensures SameProfile(users[s], after[s]) && SameProfile(users[t], after[t])
    ensures forall x :: x in after[s].friends <==> x in users[s].friends || x == t
    ensures forall x :: x in after[t].friends <==> x in users[t].friends || x == s
    ensures forall x :: x in after[t].pendingSent <==> x in users[t].pendingSent && x != s
    ensures forall x :: x in after[s].pendingReceived <==> x in users[s].pendingReceived && x != t
    ensures s != t ==> after[s].pendingSent == users[s].pendingSent
    ensures s != t ==> after[t].pendingReceived == users[t].pendingReceived
  {
    var a := users[s].(friends := users[s].friends + [t], pendingReceived := Pull(users[s].pendingReceived, t));
    var u1 := users[s := a];
    var b := u1[t].(friends := u1[t].friends + [s], pendingSent := Pull(u1[t].pendingSent, s));
    u1[t := b]
  }

  /** Listing a request from `s` to `t` on both sides. */
  function ListRequest(users: UserMap, s: UserId, t: UserId): (after: UserMap)
    requires s in users && t in users
    ensures OnlyTouches(users, after, s, t)
    ensures SameProfile(users[s], after[s]) && SameProfile(users[t], after[t])
    ensures forall x :: x in after[s].pendingSent <==> x in users[s].pendingSent || x == t
    ensures forall x :: x in after[t].pendingReceived <==> x in users[t].pendingReceived || x == s
    ensures after[s].friends == users[s].friends && after[t].friends == users[t].friends
    ensures s != t ==> after[s].pendingReceived == users[s].pendingReceived
    ensures s != t ==> after[t].pendingSent == users[t].pendingSent
  {
    var u1 := users[s := users[s].(pendingSent := users[s].pendingSent + [t])];
    u1[t := u1[t].(pendingReceived := u1[t].pendingReceived + [s])]
  }

  /** Clearing a request from `s` to `t` on both sides. */
  function UnlistRequest(users: UserMap, s: UserId, t: UserId): (after: UserMap)
    requires s in users && t in users
    ensures OnlyTouches(users, after, s, t)
    ensures SameProfile(users[s], after[s]) && SameProfile(users[t], after[t])
    ensures forall x :: x in after[s].pendingSent <==> x in users[s].pendingSent && x != t
    ensures forall x :: x in after[t].pendingReceived <==> x in users[t].pendingReceived && x != s
    ensures after[s].friends == users[s].friends && after[t].friends == users[t].friends
    ensures s != t ==> after[s].pendingReceived == users[s].pendingReceived
    ensures s != t ==> after[t].pendingSent == users[t].pendingSent
  {
    var u1 := users[s := users[s].(pendingSent := Pull(users[s].pendingSent, t))];
    u1[t := u1[t].(pendingReceived := Pull(u1[t].pendingReceived, s))]
  }

  /** Ending the friendship of `u` and `f` on both sides. */
  function Unfriend(users: UserMap, u: UserId, f: UserId): (after: UserMap)
    requires u in users && f in users
    ensures OnlyTouches(users, after, u, f)
    ensures SameProfile(users[u], after[u]) && SameProfile(users[f], after[f])
    ensures forall x :: x in after[u].friends <==> x in users[u].friends && x != f
    ensures forall x :: x in after[f].friends <==> x in users[f].friends && x != u
    ensures after[u].pendingSent == users[u].pendingSent && after[u].pendingReceived == users[u].pendingReceived
    ensures after[f].pendingSent == users[f].pendingSent && after[f].pendingReceived == users[f].pendingReceived
  {
    var u1 := users[u := users[u].(friends := Pull(users[u].friends, f))];
    var after := u1[f := u1[f].(friends := Pull(u1[f].friends, u))];
    assert after[u].pendingSent == users[u].pendingSent && after[u].pendingReceived == users[u].pendingReceived;
    after
  }

  // ---------------------------------------------------------------------------
  // Why the ledger survives each update
  // ---------------------------------------------------------------------------

  /** Befriend seen from one user `a`: `s` and `t` gain each other as friends, and
      the request from `t` to `s` leaves `t`'s sent and `s`'s received lists. */
  lemma BefriendAt(users: UserMap, s: UserId, t: UserId, a: UserId, x: UserId)
    requires s in users && t in users && a in users
    ensures var after := Befriend(users, s, t);
            && (x in after[a].friends <==> x in users[a].friends || (a == s && x == t) || (a == t && x == s))
            && (x in after[a].pendingSent <==> x in users[a].pendingSent && !(a == t && x == s))
            && (x in after[a].pendingReceived <==> x in users[a].pendingReceived && !(a == s && x == t))
  {
    if a != s && a != t {
      assert Befriend(users, s, t)[a] == users[a];
    }
  }

  lemma ListRequestAt(users: UserMap, s: UserId, t: UserId, a: UserId, x: UserId)
    requires s in users && t in users && a in users
    ensures var after := ListRequest(users, s, t);
            && (x in after[a].friends <==> x in users[a].friends)
            && (x in after[a].pendingSent <==> x in users[a].pendingSent || (a == s && x == t))
            && (x in after[a].pendingReceived <==> x in users[a].pendingReceived || (a == t && x == s))
  {
    if a != s && a != t {
      assert ListRequest(users, s, t)[a] == users[a];
    }
  }

  lemma UnlistRequestAt(users: UserMap, s: UserId, t: UserId, a: UserId, x: UserId)
    requires s in users && t in users && a in users
    ensures var after := UnlistRequest(users, s, t);
            && (x in after[a].friends <==> x in users[a].friends)
            && (x in after[a].pendingSent <==> x in users[a].pendingSent && !(a == s && x == t))
            && (x in after[a].pendingReceived <==> x in users[a].pendingReceived && !(a == t && x == s))
  {
    if a != s && a != t {
      assert UnlistRequest(users, s, t)[a] == users[a];
    }
  }

  lemma UnfriendAt(users: UserMap, u: UserId, f: UserId, a: UserId, x: UserId)
    requires u in users && f in users && a in users
    ensures var after := Unfriend(users, u, f);
            && (x in after[a].friends <==> x in users[a].friends && !(a == u && x == f) && !(a == f && x == u))
            && (x in after[a].pendingSent <==> x in users[a].pendingSent)
            && (x in after[a].pendingReceived <==> x in users[a].pendingReceived)
  {
    if a != u && a != f {
      assert Unfriend(users, u, f)[a] == users[a];
    }
  }

  lemma BefriendKeepsLedger(users: UserMap, s: UserId, t: UserId)
    requires s in users && t in users
    ensures Ledger(users) ==> Ledger(Befriend(users, s, t))
  {
    var after := Befriend(users, s, t);
    if Ledger(users) {
      forall a, b | a in after && b in after
        ensures && (b in after[a].pendingSent <==> a in after[b].pendingReceived)
                && (b in after[a].friends <==> a in after[b].friends)
      {
        BefriendAt(users, s, t, a, b);
        BefriendAt(users, s, t, b, a);
      }
    }
  }

  lemma ListRequestKeepsLedger(users: UserMap, s: UserId, t: UserId)
    requires s in users && t in users
    ensures Ledger(users) ==> Ledger(ListRequest(users, s, t))
  {
    var after := ListRequest(users, s, t);
    if Ledger(users) {
      forall a, b | a in after && b in after
        ensures && (b in after[a].pendingSent <==> a in after[b].pendingReceived)
                && (b in after[a].friends <==> a in after[b].friends)
      {
        ListRequestAt(users, s, t, a, b);
        ListRequestAt(users, s, t, b, a);
      }
    }
  }

  lemma UnlistRequestKeepsLedger(users: UserMap, s: UserId, t: UserId)
    requires s in users && t in users
    ensures Ledger(users) ==> Ledger(UnlistRequest(users, s, t))
  {
    var after := UnlistRequest(users, s, t);
    if Ledger(users) {
      forall a, b | a in after && b in after
        ensures && (b in after[a].pendingSent <==> a in after[b].pendingReceived)
                && (b in after[a].friends <==> a in after[b].friends)
      {
        UnlistRequestAt(users, s, t, a, b);
        UnlistRequestAt(users, s, t, b, a);
      }
    }
  }

  lemma UnfriendKeepsLedger(users: UserMap, u: UserId, f: UserId)
    requires u in users && f in users
    ensures Ledger(users) ==> Ledger(Unfriend(users, u, f))
  {
    var after := Unfriend(users, u, f);
    if Ledger(users) {
      forall a, b | a in after && b in after
        ensures && (b in after[a].pendingSent <==> a in after[b].pendingReceived)
                && (b in after[a].friends <==> a in after[b].friends)
      {
        UnfriendAt(users, u, f, a, b);
        UnfriendAt(users, u, f, b, a);
      }
    }
  }

  /** The friendship updates leave every phone number where it was. */
  lemma ProfilesKeptKeepsPhonesUnique(users: UserMap, after: UserMap, a: UserId, b: UserId)
    requires a in users && b in users && OnlyTouches(users, after, a, b)
    requires SameProfile(users[a], after[a]) && SameProfile(users[b], after[b])
    ensures PhonesUnique(users) ==> PhonesUnique(after)
  {
  }

  // ---------------------------------------------------------------------------
  // The four friendship transitions
  // ---------------------------------------------------------------------------

  /** How a successful `sendFriendRequest` ends. */
  datatype SendReply = AutoAccepted | RequestSent

  /** `sendFriendRequest` from `s` to `t`. When `t` has already asked `s` (a crossing
      request), the two become friends at once and `t`'s request is cleared.
      Otherwise a second request to the same user is refused, and a first one is
      listed on both sides. Nothing stops a request to oneself or to a friend. */
  function SendRequest(users: UserMap, s: UserId, t: UserId): (r: Result<(UserMap, SendReply)>)
    ensures s !in users || t !in users ==> r == Err(NotFound)
    ensures s in users && t in users && s !in users[t].pendingSent && t in users[s].pendingSent ==>
              r == Err(AlreadySent)
    ensures r.Ok? <==> s in users && t in users && (s in users[t].pendingSent || t !in users[s].pendingSent)
    ensures r.Ok? ==> OnlyTouches(users, r.value.0, s, t)
    ensures r.Ok? ==> (r.value.1 == AutoAccepted <==> s in users[t].pendingSent)
    ensures r.Ok? ==> r.value.0 == if r.value.1 == AutoAccepted then Befriend(users, s, t)
                                   else ListRequest(users, s, t)
    ensures r.Ok? && r.value.1 == AutoAccepted ==>
              var after := r.value.0;
              && t in after[s].friends && s in after[t].friends
              && s !in after[t].pendingSent && t !in after[s].pendingReceived
    ensures r.Ok? && r.value.1 == RequestSent ==>
              var after := r.value.0;
              && t in after[s].pendingSent && s in after[t].pendingReceived
              && after[s].friends == users[s].friends && after[t].friends == users[t].friends
    ensures r.Ok? && Ledger(users) ==> Ledger(r.value.0)
  {
    if s !in users || t !in users then Err(NotFound)
    else if s in users[t].pendingSent then
      BefriendKeepsLedger(users, s, t);
      Ok((Befriend(users, s, t), AutoAccepted))
    else if t in users[s].pendingSent then Err(AlreadySent)
    else
      ListRequestKeepsLedger(users, s, t);
      Ok((ListRequest(users, s, t), RequestSent))
  }

  /** `acceptFriendRequest` by `receiver` of the request from `sender`: refused unless
      it is pending; then each becomes the other's friend and the request is cleared on
      both sides. */
  function Accept(users: UserMap, receiver: UserId, sender: UserId): (r: Result<UserMap>)
    ensures receiver !in users || sender !in users ==> r == Err(NotFound)
    ensures r.Ok? <==> receiver in users && sender in users && sender in users[receiver].pendingReceived
    ensures r.Err? && receiver in users && sender in users ==> r.error == NoRequestFromUser
    ensures r.Ok? ==> && OnlyTouches(users, r.value, receiver, sender)
                      && sender in r.value[receiver].friends && receiver in r.value[sender].friends
                      && sender !in r.value[receiver].pendingReceived
                      && receiver !in r.value[sender].pendingSent
    ensures r.Ok? ==> r.value == Befriend(users, receiver, sender)
    ensures r.Ok? && Ledger(users) ==> Ledger(r.value)
  {
    if receiver !in users || sender !in users then Err(NotFound)
    else if sender !in users[receiver].pendingReceived then Err(NoRequestFromUser)
    else
      BefriendKeepsLedger(users, receiver, sender);
      Ok(Befriend(users, receiver, sender))
  }

  /** `cancelFriendRequest` by `s` of a request to `t`: whatever was pending between
      them in that direction is cleared, and it succeeds even when nothing was. The
      acting user is the one the identity middleware loaded, so it is in the map. */
  function Cancel(users: UserMap, s: UserId, t: UserId): (r: Result<UserMap>)
    requires s in users
    ensures r.Err? <==> t !in users
    ensures r.Err? ==> r.error == NotFound
    ensures r.Ok? ==> && OnlyTouches(users, r.value, s, t)
                      && t !in r.value[s].pendingSent && s !in r.value[t].pendingReceived
                      && (forall x :: x != t ==> (x in r.value[s].pendingSent <==> x in users[s].pendingSent))
                      && (forall x :: x != s ==> (x in r.value[t].pendingReceived <==> x in users[t].pendingReceived))
                      && r.value[s].friends == users[s].friends && r.value[t].friends == users[t].friends
    ensures r.Ok? ==> r.value == UnlistRequest(users, s, t)
    ensures r.Ok? && Ledger(users) ==> Ledger(r.value)
  {
    if t !in users then Err(NotFound)
    else
      UnlistRequestKeepsLedger(users, s, t);
      Ok(UnlistRequest(users, s, t))
  }

  /** `removeFriend` by `u` of `f`: each leaves the other's friends, the requests
      pending between them stay; it succeeds even when they were not friends. */
  function RemoveFriend(users: UserMap, u: UserId, f: UserId): (r: Result<UserMap>)
    requires u in users
    ensures r.Err? <==> f !in users
    ensures r.Err? ==> r.error == NotFound
    ensures r.Ok? ==> && OnlyTouches(users, r.value, u, f)
                      && f !in r.value[u].friends && u !in r.value[f].friends
                      && (forall x :: x != f ==> (x in r.value[u].friends <==> x in users[u].friends))
                      && (forall x :: x != u ==> (x in r.value[f].friends <==> x in users[f].friends))
                      && r.value[u].pendingSent == users[u].pendingSent
                      && r.value[u].pendingReceived == users[u].pendingReceived
                      && r.value[f].pendingSent == users[f].pendingSent
                      && r.value[f].pendingReceived == users[f].pendingReceived
    ensures r.Ok? ==> r.value == Unfriend(users, u, f)
    ensures r.Ok? && Ledger(users) ==> Ledger(r.value)
  {
    if f !in users then Err(NotFound)
    else
      UnfriendKeepsLedger(users, u, f);
      Ok(Unfriend(users, u, f))
  }

  // ---------------------------------------------------------------------------
  // The profile access rule
  // ---------------------------------------------------------------------------

  /** The access check of `getUserProfileWithPosts`: the profile is shown to its owner
      and to the owner's friends, and refused to anyone else. */
  function ProfileAccess(users: UserMap, viewer: UserId, owner: UserId): (r: Result<User>)
    ensures owner !in users ==> r == Err(NotFound)
    ensures owner in users ==> (r.Ok? <==> viewer == owner || viewer in users[owner].friends)
    ensures r.Ok? ==> r.value == users[owner]
    ensures r.Err? && owner in users ==> r.error == NotAFriend
  {
    if owner !in users then Err(NotFound)
    else if viewer in users[owner].friends || viewer == owner then Ok(users[owner])
    else Err(NotAFriend)
  }

  // ---------------------------------------------------------------------------
  // updateUser
  // ---------------------------------------------------------------------------

  /** Another user than `target` already has this phone number. */
  predicate PhoneTaken(users: UserMap, target: UserId, phone: string) {
    exists id :: id in users && id != target && users[id].phone == Some(phone)
  }

  /** The input checks of `updateUser`, in order: a username that is present and
      non-empty must not be blank; a phone with text must be ten digits once trimmed,
      and no other user may have that trimmed number. */
  function UpdateUserCheck(users: UserMap, target: UserId, username: Option<string>, phone: Option<string>)
    : (r: Outcome)
    ensures Truthy(username) && IsBlank(username.value) ==> r == Fail(UsernameCannotBeEmpty)
    ensures r == Fail(PhoneNotTenDigits) <==>
              !(Truthy(username) && IsBlank(username.value)) && HasText(phone) && !IsTenDigits(Trim(phone.value))
    ensures r == Fail(PhoneInUse) <==>
              && !(Truthy(username) && IsBlank(username.value)) && HasText(phone)
              && IsTenDigits(Trim(phone.value)) && PhoneTaken(users, target, Trim(phone.value))
    ensures r == Pass <==>
              && !(Truthy(username) && IsBlank(username.value))
              && (HasText(phone) ==> IsTenDigits(Trim(phone.value)) && !PhoneTaken(users, target, Trim(phone.value)))
  {
    if Truthy(username) && IsBlank(username.value) then Fail(UsernameCannotBeEmpty)
    else if HasText(phone) && !IsTenDigits(Trim(phone.value)) then Fail(PhoneNotTenDigits)
    else if HasText(phone) && PhoneTaken(users, target, Trim(phone.value)) then Fail(PhoneInUse)
    else Pass
  }

  /** The fields `updateUser` writes: the trimmed username when it has text, the
      trimmed phone (or no phone, when it is blank) whenever a phone is sent, and the
      profile image whenever one is sent. The friendship lists are not touched. */
  function UpdatedFields(u: User, username: Option<string>, phone: Option<string>, profileImage: Option<string>)
    : (v: User)
    ensures v.username == if HasText(username) then Trim(username.value) else u.username
    ensures phone.None? ==> v.phone == u.phone
    ensures phone.Some? && IsBlank(phone.value) ==> v.phone == None
    ensures phone.Some? && !IsBlank(phone.value) ==> v.phone == Some(Trim(phone.value))
    ensures v.profileImage == if profileImage.Some? then profileImage.value else u.profileImage
    ensures v.email == u.email
    ensures v.friends == u.friends && v.pendingSent == u.pendingSent && v.pendingReceived == u.pendingReceived
  {
    var u1 := if HasText(username) then u.(username := Trim(username.value)) else u;
    var u2 := if phone.None? then u1
              else if Trim(phone.value) == "" then u1.(phone := None)
              else u1.(phone := Some(Trim(phone.value)));
    if profileImage.Some? then u2.(profileImage := profileImage.value) else u2
  }

  /** `updateUser` on the record `target` (the id in the path, which need not be the
      acting user's own): the checks come first, the lookup after them. */
  function UpdateUser(users: UserMap, target: UserId, username: Option<string>, phone: Option<string>,
                      profileImage: Option<string>): (r: Result<UserMap>)
    ensures UpdateUserCheck(users, target, username, phone).Fail? ==>
              r == Err(UpdateUserCheck(users, target, username, phone).error)
    ensures UpdateUserCheck(users, target, username, phone) == Pass && target !in users ==> r == Err(NotFound)
    ensures r.Ok? <==> UpdateUserCheck(users, target, username, phone) == Pass && target in users
    ensures r.Ok? ==> && OnlyTouches(users, r.value, target, target)
                      && r.value[target] == UpdatedFields(users[target], username, phone, profileImage)
  {
    match UpdateUserCheck(users, target, username, phone)
    case Fail(e) => Err(e)
    case Pass =>
      if target !in users then Err(NotFound)
      else Ok(users[target := UpdatedFields(users[target], username, phone, profileImage)])
  }

  /** `updateUser` does not touch the friendship lists, so it keeps the ledger. */
  lemma NewFieldsKeepLedger(users: UserMap, target: UserId, v: User)
    requires target in users
    requires v.friends == users[target].friends && v.pendingSent == users[target].pendingSent
    requires v.pendingReceived == users[target].pendingReceived
    ensures Ledger(users) ==> Ledger(users[target := v])
  {
  }

  /** No two users share a phone number. */
  predicate PhonesUnique(users: UserMap) {
    forall a, b :: a in users && b in users && a != b && users[a].phone.Some? ==> users[a].phone != users[b].phone
  }

  /** The in-use check keeps phone numbers unique, and so does clearing a phone. */
  lemma UpdateKeepsPhonesUnique(users: UserMap, target: UserId, username: Option<string>,
                                phone: Option<string>, profileImage: Option<string>)
    requires PhonesUnique(users)
    requires UpdateUser(users, target, username, phone, profileImage).Ok?
    ensures PhonesUnique(UpdateUser(users, target, username, phone, profileImage).value)
  {
    var after := UpdateUser(users, target, username, phone, profileImage).value;
    forall a, b | a in after && b in after && a != b && after[a].phone.Some?
      ensures after[a].phone != after[b].phone
    {
      if phone.Some? && !IsBlank(phone.value) {
        if a == target {
          assert !PhoneTaken(users, target, Trim(phone.value));
          assert users[b].phone != Some(Trim(phone.value));
        } else if b == target {
          assert !PhoneTaken(users, target, Trim(phone.value));
        }
      }
    }
  }

  /** Trimming drops one space on each side of a text that starts and ends with
      something else. */
  lemma TrimPadded(d: string)
    requires d != [] && !IsWhitespace(d[0]) && !IsWhitespace(d[|d| - 1])
    ensures Trim([' '] + d + [' ']) == d
  {
    var p := [' '] + d + [' '];
    assert p[1..] == d + [' '];
    assert TrimStart(p) == TrimStart(d + [' ']);
    assert (d + [' '])[0] == d[0];
    assert TrimStart(d + [' ']) == d + [' '];
    assert (d + [' '])[..|d|] == d;
    assert TrimEnd(d + [' ']) == TrimEnd(d) == d;
  }

  /** A phone padded with spaces passes `updateUser` and is stored trimmed, while the
      separate update validator, which does not trim, would refuse it. */
  lemma PaddedPhoneIsTrimmed(users: UserMap, target: UserId, d: string)
    requires target in users && IsTenDigits(d) && !PhoneTaken(users, target, d)
    ensures var padded := Some([' '] + d + [' ']);
            && UpdateUser(users, target, None, padded, None).Ok?
            && UpdateUser(users, target, None, padded, None).value[target].phone == Some(d)
            && !IsTenDigits(padded.value)
  {
    assert IsAsciiDigit(d[0]) && IsAsciiDigit(d[9]);
    TrimPadded(d);
  }

  // ---------------------------------------------------------------------------
  // Properties across friendship operations
  // ---------------------------------------------------------------------------

  /** When `a` asks `b` and `b` then asks `a`, the crossing request makes them friends,
      and nothing is left pending between them either way. */
  lemma CrossingRequestsMakeFriends(users: UserMap, a: UserId, b: UserId)
    requires Ledger(users) && a in users && b in users && a != b
    requires b !in users[a].pendingSent && a !in users[b].pendingSent
    ensures var first := SendRequest(users, a, b);
            && first.Ok? && first.value.1 == RequestSent
            && var second := SendRequest(first.value.0, b, a);
               && second.Ok? && second.value.1 == AutoAccepted
               && var after := second.value.0;
                  && b in after[a].friends && a in after[b].friends
                  && b !in after[a].pendingSent && a !in after[b].pendingSent
                  && b !in after[a].pendingReceived && a !in after[b].pendingReceived
  {
    var u1 := SendRequest(users, a, b).value.0;
    assert Ledger(u1);
    var u2 := SendRequest(u1, b, a).value.0;
    assert a !in users[b].pendingReceived;
    assert Ledger(u2);
  }

  /** Asking the same user twice is refused the second time. */
  lemma SecondRequestRefused(users: UserMap, a: UserId, b: UserId)
    requires a in users && b in users && a != b
    requires SendRequest(users, a, b).Ok? && SendRequest(users, a, b).value.1 == RequestSent
    ensures SendRequest(SendRequest(users, a, b).value.0, a, b) == Err(AlreadySent)
  {
  }

  /** Nothing stops a user asking themself: the second request finds the first as a
      crossing request and makes the user their own friend. */
  lemma SelfRequestMakesSelfFriend(users: UserMap, a: UserId)
    requires a in users && a !in users[a].pendingSent
    ensures var first := SendRequest(users, a, a);
            && first.Ok? && first.value.1 == RequestSent
            && var second := SendRequest(first.value.0, a, a);
               && second.Ok? && second.value.1 == AutoAccepted
               && a in second.value.0[a].friends
  {
  }

  /** An accepted request opens each profile to the other user. */
  lemma AcceptOpensProfiles(users: UserMap, receiver: UserId, sender: UserId)
    requires Accept(users, receiver, sender).Ok?
    ensures ProfileAccess(Accept(users, receiver, sender).value, sender, receiver).Ok?
    ensures ProfileAccess(Accept(users, receiver, sender).value, receiver, sender).Ok?
  {
  }

  /** Clearing a request just listed restores both records. */
  lemma UnlistUndoesList(users: UserMap, a: UserId, b: UserId)
    requires a in users && b in users && a != b
    requires b !in users[a].pendingSent && a !in users[b].pendingReceived
    ensures UnlistRequest(ListRequest(users, a, b), a, b) == users
  {
    var ps, pr := users[a].pendingSent, users[b].pendingReceived;
    var after := ListRequest(users, a, b);
    assert after == users[a := users[a].(pendingSent := ps + [b])][b := users[b].(pendingReceived := pr + [a])];
    PullPushed(ps, b);
    PullPushed(pr, a);
    assert after[a].(pendingSent := Pull(after[a].pendingSent, b)) == users[a];
    var u1 := after[a := users[a]];
    assert u1[b].(pendingReceived := Pull(u1[b].pendingReceived, a)) == users[b];
    assert UnlistRequest(after, a, b) == u1[b := users[b]] == users;
  }

  /** Cancelling right after a plain request restores every record. */
  lemma CancelUndoesRequest(users: UserMap, a: UserId, b: UserId)
    requires Ledger(users) && a in users && b in users && a != b
    requires SendRequest(users, a, b).Ok? && SendRequest(users, a, b).value.1 == RequestSent
    ensures Cancel(SendRequest(users, a, b).value.0, a, b) == Ok(users)
  {
    assert b !in users[a].pendingSent;
    assert b in users[a].pendingSent <==> a in users[b].pendingReceived;
    assert SendRequest(users, a, b).value.0 == ListRequest(users, a, b);
    UnlistUndoesList(users, a, b);
  }

  /** Clearing a request that is listed on neither side changes nothing. */
  lemma UnlistNothing(users: UserMap, s: UserId, t: UserId)
    requires s in users && t in users
    requires t !in users[s].pendingSent && s !in users[t].pendingReceived
    ensures UnlistRequest(users, s, t) == users
  {
    assert users[s].(pendingSent := Pull(users[s].pendingSent, t)) == users[s];
    assert users[t].(pendingReceived := Pull(users[t].pendingReceived, s)) == users[t];
    assert UnlistRequest(users, s, t) == users[s := users[s]][t := users[t]] == users;
  }

  /** Ending a friendship listed on neither side changes nothing. */
  lemma UnfriendNothing(users: UserMap, u: UserId, f: UserId)
    requires u in users && f in users
    requires f !in users[u].friends && u !in users[f].friends
    ensures Unfriend(users, u, f) == users
  {
    assert users[u].(friends := Pull(users[u].friends, f)) == users[u];
    assert users[f].(friends := Pull(users[f].friends, u)) == users[f];
    assert Unfriend(users, u, f) == users[u := users[u]][f := users[f]] == users;
  }

  /** Cancelling twice is cancelling once. */
  lemma CancelIdempotent(users: UserMap, s: UserId, t: UserId)
    requires s in users && Cancel(users, s, t).Ok?
    ensures Cancel(Cancel(users, s, t).value, s, t) == Cancel(users, s, t)
  {
    var once := Cancel(users, s, t).value;
    UnlistNothing(once, s, t);
  }

  /** Removing a friend twice is removing once. */
  lemma RemoveIdempotent(users: UserMap, u: UserId, f: UserId)
    requires u in users && RemoveFriend(users, u, f).Ok?
    ensures RemoveFriend(RemoveFriend(users, u, f).value, u, f) == RemoveFriend(users, u, f)
  {
    var once := RemoveFriend(users, u, f).value;
    UnfriendNothing(once, u, f);
  }

  // ---------------------------------------------------------------------------
  // The users collection
  // ---------------------------------------------------------------------------

  class UserStore {
    var users: UserMap

    ghost predicate Valid()
      reads this
    {
      Ledger(users) && PhonesUnique(users)
    }

    constructor (initial: UserMap)
      requires Ledger(initial) && PhonesUnique(initial)
      ensures Valid() && users == initial
    {
      users := initial;
    }

    /** `sendFriendRequest` applied in place. */
    method SendFriendRequest(s: UserId, t: UserId) returns (r: Result<SendReply>)
      requires Valid()
      modifies this
      ensures Valid()
      ensures var spec := SendRequest(old(users), s, t);
              && (spec.Err? ==> r == Err(spec.error) && users == old(users))
              && (spec.Ok? ==> r == Ok(spec.value.1) && users == spec.value.0)
    {
      if s !in users || t !in users {
        return Err(NotFound);
      }
      if s in users[t].pendingSent {
        BefriendKeepsLedger(users, s, t);
        ProfilesKeptKeepsPhonesUnique(users, Befriend(users, s, t), s, t);
        users := Befriend(users, s, t);
        return Ok(AutoAccepted);
      }
      if t in users[s].pendingSent {
        return Err(AlreadySent);
      }
      ListRequestKeepsLedger(users, s, t);
      ProfilesKeptKeepsPhonesUnique(users, ListRequest(users, s, t), s, t);
      users := ListRequest(users, s, t);
      r := Ok(RequestSent);
    }

    /** `acceptFriendRequest` applied in place. */
    method AcceptFriendRequest(receiver: UserId, sender: UserId) returns (r: Result<()>)
      requires Valid()
      modifies this
      ensures Valid()
      ensures var spec := Accept(old(users), receiver, sender);
              && (spec.Err? ==> r == Err(spec.error) && users == old(users))
              && (spec.Ok? ==> r == Ok(()) && users == spec.value)
    {
      if receiver !in users || sender !in users {
        return Err(NotFound);
      }
      if sender !in users[receiver].pendingReceived {
        return Err(NoRequestFromUser);
      }
      BefriendKeepsLedger(users, receiver, sender);
      ProfilesKeptKeepsPhonesUnique(users, Befriend(users, receiver, sender), receiver, sender);
      users := Befriend(users, receiver, sender);
      r := Ok(());
    }

    /** `cancelFriendRequest` applied in place. */
    method CancelFriendRequest(s: UserId, t: UserId) returns (r: Result<()>)
      requires Valid() && s in users
      modifies this
      ensures Valid()
      ensures var spec := Cancel(old(users), s, t);
              && (spec.Err? ==> r == Err(spec.error) && users == old(users))
              && (spec.Ok? ==> r == Ok(()) && users == spec.value)
    {
      if t !in users {
        return Err(NotFound);
      }
      UnlistRequestKeepsLedger(users, s, t);
      ProfilesKeptKeepsPhonesUnique(users, UnlistRequest(users, s, t), s, t);
      users := UnlistRequest(users, s, t);
      r := Ok(());
    }

    /** `removeFriend` applied in place. */
    method RemoveFriendOf(u: UserId, f: UserId) returns (r: Result<()>)
      requires Valid() && u in users
      modifies this
      ensures Valid()
      ensures var spec := RemoveFriend(old(users), u, f);
              && (spec.Err? ==> r == Err(spec.error) && users == old(users))
              && (spec.Ok? ==> r == Ok(()) && users == spec.value)
    {
      if f !in users {
        return Err(NotFound);
      }
      UnfriendKeepsLedger(users, u, f);
      ProfilesKeptKeepsPhonesUnique(users, Unfriend(users, u, f), u, f);
      users := Unfriend(users, u, f);
      r := Ok(());
    }

    /** `updateUser` applied in place. */
    method UpdateUserFields(target: UserId, username: Option<string>, phone: Option<string>,
                            profileImage: Option<string>) returns (r: Result<User>)
      requires Valid()
      modifies this
      ensures Valid()
      ensures var spec := UpdateUser(old(users), target, username, phone, profileImage);
              && (spec.Err? ==> r == Err(spec.error) && users == old(users))
              && (spec.Ok? ==> users == spec.value && r == Ok(users[target]))
    {
      var check := UpdateUserCheck(users, target, username, phone);
      if check.Fail? {
        return Err(check.error);
      }
      if target !in users {
        return Err(NotFound);
      }
      UpdateKeepsPhonesUnique(users, target, username, phone, profileImage);
      var u := users[target];
      if HasText(username) {
        u := u.(username := Trim(username.value));
      }
      if phone.Some? {
        var trimmed := Trim(phone.value);
        u := u.(phone := if trimmed == "" then None else Some(trimmed));
      }
      if profileImage.Some? {
        u := u.(profileImage := profileImage.value);
      }
      assert u == UpdatedFields(users[target], username, phone, profileImage);
      NewFieldsKeepLedger(users, target, u);
      users := users[target := u];
      r := Ok(u);
    }
  }
}
