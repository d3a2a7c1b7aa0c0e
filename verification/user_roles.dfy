/** Role reassignment (`EditUserRoleDialog.handleSave`): delete the user's current role row,
    then insert the selected one. The two writes are independent: the delete's outcome is
    never looked at, and nothing undoes it when the insert fails. */
module UserRoles {
  import opened Wrappers
  import opened Schema
  import opened Store
  import opened Ui

  /** The role the dialog starts with: `currentRole || "viewer"`. */
  function InitialRole(current: Option<AppRole>): (r: AppRole)
    ensures current.Some? ==> r == current.value
    ensures current.None? ==> r == Viewer
  {
    current.GetOr(Viewer)
  }

  /** The (user, role) pairs the table grants. */
  function Pairs(t: Table<UserRoleRow>): (ps: set<(Id, AppRole)>)
    ensures forall u, role :: (u, role) in ps <==> exists k :: k in t && t[k].userId == u && t[k].role == role
  {
    set k | k in t :: (t[k].userId, t[k].role)
  }

  function Holds(u: Id, role: AppRole): UserRoleRow -> bool {
    (row: UserRoleRow) => row.userId == u && row.role == role
  }

  datatype SaveReplies = SaveReplies(delete: Reply, insert: Result<Id>)

  datatype SaveOutcome = SaveOutcome(table: Table<UserRoleRow>, toast: Toast, open: bool, reload: bool)

  const RoleUpdateFailed: string := "Failed to update user role"

  /** `handleSave` for user `u` holding `current` (shown as `null` when it has none). */
  function SaveRole(t: Table<UserRoleRow>, u: Id, current: Option<AppRole>, selected: AppRole,
                    open: bool, replies: SaveReplies): (r: SaveOutcome)
    ensures r.reload <==> replies.insert.Ok?
    ensures r.open <==> open && replies.insert.Err?
    ensures replies.insert.Err? ==> r.toast == Error(RoleUpdateFailed)
    ensures replies.insert.Ok? ==> r.toast == Success("Role updated to " + AppRoleName(selected))
    ensures replies.insert.Ok? ==> var id := replies.insert.value;
      id in r.table && r.table[id] == UserRoleRow(id, u, selected)
    ensures forall k :: k in t && (current.None? || replies.delete.Refused? || !Holds(u, current.value)(t[k]))
                        && !(replies.insert.Ok? && k == replies.insert.value)
                        ==> k in r.table && r.table[k] == t[k]
    ensures current.Some? && replies.delete.Accepted? ==>
      forall k :: k in r.table && Holds(u, current.value)(r.table[k]) ==> replies.insert.Ok? && k == replies.insert.value
    ensures forall k :: k in r.table ==> k in t || (replies.insert.Ok? && k == replies.insert.value)
  {
    var afterDelete :=
      if current.Some? && replies.delete.Accepted? then DeleteWhere(t, Holds(u, current.value)) else t;
    match replies.insert
    case Ok(id) =>
      SaveOutcome(afterDelete[id := UserRoleRow(id, u, selected)], Success("Role updated to " + AppRoleName(selected)), false, true)
    case Err(_) => SaveOutcome(afterDelete, Error(RoleUpdateFailed), open, false)
  }

  /** The pairs dropped and added by a save. */
  function Dropped(u: Id, current: Option<AppRole>, replies: SaveReplies): set<(Id, AppRole)> {
    if current.Some? && replies.delete.Accepted? then {(u, current.value)} else {}
  }

  function Added(u: Id, selected: AppRole, replies: SaveReplies): set<(Id, AppRole)> {
    if replies.insert.Ok? then {(u, selected)} else {}
  }

  /** The pairs after a save with a fresh row id: the current pair is dropped when the delete
      went through, and the selected pair is added when the insert did; every other pair
      survives whatever the replies were. */
  lemma SavePairs(t: Table<UserRoleRow>, u: Id, current: Option<AppRole>, selected: AppRole,
                  open: bool, replies: SaveReplies)
    requires replies.insert.Ok? ==> replies.insert.value !in t
    ensures var after := Pairs(SaveRole(t, u, current, selected, open, replies).table);
      var dropped := if current.Some? && replies.delete.Accepted? then {(u, current.value)} else {};
      var added := if replies.insert.Ok? then {(u, selected)} else {};
      after == (Pairs(t) - dropped) + added
  {
    SavedPairsKept(t, u, current, selected, open, replies);
    SavedPairsOnly(t, u, current, selected, open, replies);
  }

  /** Every surviving or added pair is in the table after the save. */
  lemma SavedPairsKept(t: Table<UserRoleRow>, u: Id, current: Option<AppRole>, selected: AppRole,
                       open: bool, replies: SaveReplies)
    requires replies.insert.Ok? ==> replies.insert.value !in t
    ensures (Pairs(t) - Dropped(u, current, replies)) + Added(u, selected, replies)
      <= Pairs(SaveRole(t, u, current, selected, open, replies).table)
  {
    var r := SaveRole(t, u, current, selected, open, replies);
    var added := Added(u, selected, replies);
    forall pair | pair in (Pairs(t) - Dropped(u, current, replies)) + added
      ensures pair in Pairs(r.table)
    {
      if pair !in added {
        var k :| k in t && t[k].userId == pair.0 && t[k].role == pair.1;
        assert k in r.table && r.table[k] == t[k];
      } else {
        var id := replies.insert.value;
        assert r.table[id].userId == pair.0 && r.table[id].role == pair.1;
      }
    }
  }

  /** The table after the save holds no other pair. */
  lemma SavedPairsOnly(t: Table<UserRoleRow>, u: Id, current: Option<AppRole>, selected: AppRole,
                       open: bool, replies: SaveReplies)
    ensures Pairs(SaveRole(t, u, current, selected, open, replies).table)
      <= (Pairs(t) - Dropped(u, current, replies)) + Added(u, selected, replies)
  {
    var r := SaveRole(t, u, current, selected, open, replies);
    forall pair | pair in Pairs(r.table)
      ensures pair in (Pairs(t) - Dropped(u, current, replies)) + Added(u, selected, replies)
    {
      var k :| k in r.table && r.table[k].userId == pair.0 && r.table[k].role == pair.1;
      if replies.insert.Ok? && k == replies.insert.value {
        assert pair in Added(u, selected, replies);
      } else {
        assert k in t && t[k] == r.table[k];
        assert pair in Pairs(t);
        if current.Some? && replies.delete.Accepted? {
          assert !Holds(u, current.value)(r.table[k]);
        }
      }
    }
  }

  /** Saving the role a user already has, when the insert is accepted, leaves the set of
      (user, role) pairs as it was. */
  lemma SameRoleKeepsPairs(t: Table<UserRoleRow>, u: Id, role: AppRole, open: bool, replies: SaveReplies)
    requires (u, role) in Pairs(t)
    requires replies.insert.Ok? && replies.insert.value !in t
    ensures Pairs(SaveRole(t, u, Some(role), role, open, replies).table) == Pairs(t)
  {
    SavePairs(t, u, Some(role), role, open, replies);
  }

  /** When the delete goes through but the insert is refused, the user is left without
      either role. */
  lemma RefusedInsertLosesRole(t: Table<UserRoleRow>, u: Id, current: AppRole, selected: AppRole,
                               open: bool, message: string)
    ensures var after := Pairs(SaveRole(t, u, Some(current), selected, open, SaveReplies(Accepted, Err(message))).table);
      (u, current) !in after && ((u, selected) in after <==> selected != current && (u, selected) in Pairs(t))
  {
    SavePairs(t, u, Some(current), selected, open, SaveReplies(Accepted, Err(message)));
  }
}

/** The user list of the settings page (`UserManagement.loadUsers`): every profile joined
    with the first role row of the same user, collected in a JavaScript `Map` keyed by
    profile id. */
module UserDirectory {
  import opened Wrappers
  import opened Schema
  import opened Ui
  import Seqs

  datatype UserEntry = UserEntry(id: Id, email: string, fullName: Option<string>, position: Option<string>, role: Option<string>)

  function ForUser(uid: Id): UserRoleRow -> bool {
    (row: UserRoleRow) => row.userId == uid
  }

  /** `roles?.find(r => r.user_id === uid)?.role || null`, as the role's name. */
  function RoleOf(roles: seq<UserRoleRow>, uid: Id): (r: Option<string>)
    ensures r.None? <==> forall i :: 0 <= i < |roles| ==> roles[i].userId != uid
    ensures r.Some? ==> var i := Seqs.FirstIndex(roles, ForUser(uid));
      i < |roles| && roles[i].userId == uid && r.value == AppRoleName(roles[i].role)
  {
    match Seqs.Find(roles, ForUser(uid))
    case None => None
    case Some(row) =>
      var i := Seqs.FirstIndex(roles, ForUser(uid));
      assert roles[i] == row;
      Some(AppRoleName(row.role))
  }

  /** The entry built for one profile; the email is never known on the client. */
  function EntryOf(p: ProfileRow, roles: seq<UserRoleRow>): (e: UserEntry)
    ensures e.id == p.id && e.email == "" && e.fullName == p.fullName && e.position == p.position
    ensures e.role == RoleOf(roles, p.id)
  {
    UserEntry(p.id, "", p.fullName, p.position, RoleOf(roles, p.id))
  }

  function SameId(id: Id): UserEntry -> bool {
    (e: UserEntry) => e.id == id
  }

  /** `Map.prototype.set`: a new key goes last, an existing key keeps its place and takes
      the new value. */
  function MapSet(entries: seq<UserEntry>, e: UserEntry): (r: seq<UserEntry>)
    ensures Seqs.FirstIndex(entries, SameId(e.id)) < |entries| ==>
      r == entries[Seqs.FirstIndex(entries, SameId(e.id)) := e]
    ensures Seqs.FirstIndex(entries, SameId(e.id)) == |entries| ==> r == entries + [e]
    ensures forall x :: x in r ==> x in entries || x == e
  {
    var i := Seqs.FirstIndex(entries, SameId(e.id));
    if i < |entries| then entries[i := e] else entries + [e]
  }

  function Ids(entries: seq<UserEntry>): (r: seq<Id>)
    ensures |r| == |entries|
    ensures forall i :: 0 <= i < |r| ==> r[i] == entries[i].id
  {
    seq(|entries|, i requires 0 <= i < |entries| => entries[i].id)
  }

  /** `Array.from(usersMap.values())` after the loop over `profiles` (`null` profiles give
      an empty list; a `null` role list gives every user no role). */
  function LoadUsers(profiles: Option<seq<ProfileRow>>, roles: Option<seq<UserRoleRow>>): (r: seq<UserEntry>)
    ensures profiles.None? ==> r == []
    ensures forall e :: e in r ==> e.email == ""
  {
    match profiles
    case None => []
    case Some(ps) => Join(ps, roles.GetOr([]))
  }

  function Join(ps: seq<ProfileRow>, roles: seq<UserRoleRow>): (r: seq<UserEntry>)
    ensures forall e :: e in r ==> exists p :: p in ps && e == EntryOf(p, roles)
  {
    if |ps| == 0 then []
    else
      var init := ps[..|ps| - 1];
      assert forall p :: p in init ==> p in ps;
      MapSet(Join(init, roles), EntryOf(ps[|ps| - 1], roles))
  }

  /** Setting a key adds it at the end when it is new and keeps the key order otherwise. */
  lemma MapSetIds(entries: seq<UserEntry>, e: UserEntry)
    ensures e.id in Ids(entries) ==> Ids(MapSet(entries, e)) == Ids(entries)
    ensures e.id !in Ids(entries) ==> Ids(MapSet(entries, e)) == Ids(entries) + [e.id]
  {
    var i := Seqs.FirstIndex(entries, SameId(e.id));
    if e.id in Ids(entries) {
      var k :| 0 <= k < |entries| && Ids(entries)[k] == e.id;
      assert SameId(e.id)(entries[k]);
      assert i < |entries|;
    } else {
      assert i == |entries|;
    }
  }

  /** The profile ids in fetch order. */
  function ProfileIds(ps: seq<ProfileRow>): (r: seq<Id>)
    ensures |r| == |ps|
    ensures forall i :: 0 <= i < |r| ==> r[i] == ps[i].id
  {
    seq(|ps|, i requires 0 <= i < |ps| => ps[i].id)
  }

  /** Setting a key none of the entries has appends the entry. */
  lemma MapSetNew(entries: seq<UserEntry>, e: UserEntry, keys: seq<Id>)
    requires |keys| == |entries| && e.id !in keys
    requires forall k :: 0 <= k < |entries| ==> entries[k].id == keys[k]
    ensures MapSet(entries, e) == entries + [e]
  {
  }

  /** The entries of all but the last profile, then the last profile's entry. */
  lemma AppendEntry(prev: seq<UserEntry>, e: UserEntry, ps: seq<ProfileRow>, roles: seq<UserRoleRow>)
    requires |ps| > 0 && |prev| == |ps| - 1 && e == EntryOf(ps[|ps| - 1], roles)
    requires forall i :: 0 <= i < |prev| ==> prev[i] == EntryOf(ps[..|ps| - 1][i], roles)
    ensures forall i :: 0 <= i < |ps| ==> (prev + [e])[i] == EntryOf(ps[i], roles)
  {
    forall i | 0 <= i < |ps|
      ensures (prev + [e])[i] == EntryOf(ps[i], roles)
    {
      if i < |prev| {
        assert ps[..|ps| - 1][i] == ps[i];
      }
    }
  }

  lemma JoinLast(ps: seq<ProfileRow>, roles: seq<UserRoleRow>)
    requires |ps| > 0
    ensures Join(ps, roles) == MapSet(Join(ps[..|ps| - 1], roles), EntryOf(ps[|ps| - 1], roles))
  {
  }

  /** Distinct profile ids stay distinct without the last profile, whose id is new to them. */
  lemma DistinctInit(ps: seq<ProfileRow>)
    requires |ps| > 0 && Seqs.NoDuplicates(ProfileIds(ps))
    ensures Seqs.NoDuplicates(ProfileIds(ps[..|ps| - 1]))
    ensures ps[|ps| - 1].id !in ProfileIds(ps[..|ps| - 1])
  {
    ProfileIdsInit(ps);
    Seqs.NoDuplicatesInit(ProfileIds(ps[..|ps| - 1]), ps[|ps| - 1].id);
  }

  lemma ProfileIdsInit(ps: seq<ProfileRow>)
    requires |ps| > 0
    ensures ProfileIds(ps) == ProfileIds(ps[..|ps| - 1]) + [ps[|ps| - 1].id]
  {
  }

  /** One step of the join on keys alone: `after` is `keys` with `x` set, and `keys` held
      exactly the ids of `pids`, each once. */
  lemma KeysStep(keys: seq<Id>, after: seq<Id>, pids: seq<Id>, x: Id)
    requires Seqs.NoDuplicates(keys) && forall id :: id in keys <==> id in pids
    requires x in keys ==> after == keys
    requires x !in keys ==> after == keys + [x]
    ensures Seqs.NoDuplicates(after)
    ensures forall id :: id in after <==> id in pids + [x]
  {
    if x !in keys {
      Seqs.NoDuplicatesSnoc(keys, x);
    }
  }

  /** The joined list has one entry per distinct profile id and no other: users with a role
      row but no profile do not appear. */
  lemma {:induction false} JoinKeys(ps: seq<ProfileRow>, roles: seq<UserRoleRow>)
    ensures Seqs.NoDuplicates(Ids(Join(ps, roles)))
    ensures forall id :: id in Ids(Join(ps, roles)) <==> id in ProfileIds(ps)
  {
    if |ps| > 0 {
      var n := |ps| - 1;
      var prev := Join(ps[..n], roles);
      var e := EntryOf(ps[n], roles);
      assert Join(ps, roles) == MapSet(prev, e);
      ProfileIdsInit(ps);
      JoinKeys(ps[..n], roles);
      MapSetIds(prev, e);
      KeysStep(Ids(prev), Ids(Join(ps, roles)), ProfileIds(ps[..n]), e.id);
    }
  }

  /** When profile ids are distinct (they are the table's primary key) the list is the
      profiles in fetch order, one entry each. */
  lemma {:induction false} JoinDistinct(ps: seq<ProfileRow>, roles: seq<UserRoleRow>)
    requires Seqs.NoDuplicates(ProfileIds(ps))
    ensures |Join(ps, roles)| == |ps|
    ensures forall i :: 0 <= i < |ps| ==> Join(ps, roles)[i] == EntryOf(ps[i], roles)
  {
    if |ps| > 0 {
      var n := |ps| - 1;
      var prev := Join(ps[..n], roles);
      var e := EntryOf(ps[n], roles);
      JoinLast(ps, roles);
      DistinctInit(ps);
      JoinDistinct(ps[..n], roles);
      MapSetNew(prev, e, ProfileIds(ps[..n]));
      AppendEntry(prev, e, ps, roles);
    }
  }

  datatype Icon = ShieldAlert | Shield | Eye

  /** `getRoleIcon`. */
  function RoleIcon(role: Option<string>): (r: Option<Icon>)
    ensures r.Some? <==> role.Some? && role.value in AppRoleConstants
    ensures r == Some(ShieldAlert) <==> role == Some("admin")
    ensures r == Some(Shield) <==> role == Some("staff")
    ensures r == Some(Eye) <==> role == Some("viewer")
  {
    match role
    case Some("admin") => Some(ShieldAlert)
    case Some("staff") => Some(Shield)
    case Some("viewer") => Some(Eye)
    case _ => None
  }

  /** `getRoleBadge`: the label and the variant. */
  function RoleBadge(role: Option<string>): (r: (string, Variant))
    ensures role.None? || role.value == "" ==> r == ("No Role", Outline)
    ensures role.Some? && role.value != "" ==> r.0 == role.value
    ensures r.1 == Outline <==> role.None? || role.value !in AppRoleConstants
    ensures r.1 == Destructive <==> role == Some("admin")
    ensures r.1 == Default <==> role == Some("staff")
    ensures r.1 == Secondary <==> role == Some("viewer")
  {
    match role
    case None => ("No Role", Outline)
    case Some(name) =>
      if name == "" then ("No Role", Outline)
      else (name, match name
                  case "admin" => Destructive
                  case "staff" => Default
                  case "viewer" => Secondary
                  case _ => Outline)
  }

  /** Every entry the join produces has an icon exactly when it has a role, and only
      role-less users get the outline badge. */
  lemma JoinedRolesDisplay(ps: seq<ProfileRow>, roles: seq<UserRoleRow>, e: UserEntry)
    requires e in Join(ps, roles)
    ensures RoleIcon(e.role).Some? <==> e.role.Some?
    ensures RoleBadge(e.role).1 == Outline <==> e.role.None?
  {
    if e.role.Some? {
      AppRoleConstantsMatchUnion();
      var i := Seqs.FirstIndex(roles, ForUser(e.id));
      assert ParseAppRole(e.role.value).Some?;
    }
  }
}
