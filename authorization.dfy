/** The two ownership middlewares: which entity kind the token names, one
    lookup, and an owner-or-role test choosing between refusing the request
    and passing it on. */
module Authorization {
  import opened Schema

  /** A middleware's decision: pass to the next handler, answer with an
      error status, or throw before answering (a property read on a missing
      row). */
  datatype Decision = Next | Reject(status: int) | Crash

  /** The rows the middlewares look up, by primary key. Memories, profiles
      and comments carry their owner's user id; user rows have no `user_id`
      column. */
  datatype Directory = Directory(
    memories: map<Id, Id>,
    users: set<Id>,
    profiles: map<Id, Id>,
    comments: map<Id, Id>)

  /** A found row's `user_id`: `None` stands for the undefined attribute of
      a user row. */
  datatype Found = Missing | Row(owner: Option<Id>)

  /** `findByPk` in the table of an entity kind: the row carries the
      `user_id` of a memory, profile or comment; a user row has none. */
  function FindByPk(dir: Directory, kind: string, id: Id): (r: Found)
    ensures kind == "memory" ==> r == if id in dir.memories then Row(Some(dir.memories[id])) else Missing
    ensures kind == "user" ==> (r.Row? <==> id in dir.users) && (r.Row? ==> r.owner.None?)
    ensures kind == "profile" ==> r == if id in dir.profiles then Row(Some(dir.profiles[id])) else Missing
    ensures kind == "comment" ==> r == if id in dir.comments then Row(Some(dir.comments[id])) else Missing
    ensures kind !in {"memory", "user", "profile", "comment"} ==> r == Missing
  {
    if kind == "memory" then (if id in dir.memories then Row(Some(dir.memories[id])) else Missing)
    else if kind == "user" then (if id in dir.users then Row(None) else Missing)
    else if kind == "profile" then (if id in dir.profiles then Row(Some(dir.profiles[id])) else Missing)
    else if kind == "comment" then (if id in dir.comments then Row(Some(dir.comments[id])) else Missing)
    else Missing
  }

  /** Ids of the profiles whose `user_id` is `u`. */
  function ProfilesOfUser(profiles: map<Id, Id>, u: Id): set<Id> {
    set p | p in profiles && profiles[p] == u
  }

  /** The strict comparison `row.user_id !== auth.userId`, both sides
      possibly undefined. */
  predicate Owns(owner: Option<Id>, caller: Option<Id>) {
    owner == caller
  }

  const ModeratorKinds: set<string> := {"memory", "user", "profile", "comment"}
  const AdminKinds: set<string> := {"memory", "user", "profile"}

  /** `isOwnerOrModerator`: a missing id or an unknown kind is 400, a missing
      row 404; the owner, a MODERATOR and an ADMIN pass, anyone else gets 403. */
  function IsOwnerOrModerator(dir: Directory, kind: string, entityId: Option<Id>, caller: Option<Id>, roles: set<string>): (r: Decision)
    ensures r != Crash
    ensures r == Reject(BadRequest) <==> entityId.None? || kind !in ModeratorKinds
    ensures (r == Reject(NotFound) <==>
               entityId.Some? && kind in ModeratorKinds && FindByPk(dir, kind, entityId.value).Missing?)
    ensures (r == Next <==>
               && entityId.Some? && kind in ModeratorKinds && FindByPk(dir, kind, entityId.value).Row?
               && (Owns(FindByPk(dir, kind, entityId.value).owner, caller) || "MODERATOR" in roles || "ADMIN" in roles))
  {
    if entityId.None? then Reject(BadRequest)
    else if kind !in ModeratorKinds then Reject(BadRequest)
    else
      var found := FindByPk(dir, kind, entityId.value);
      if found.Missing? then Reject(NotFound)
      else if !Owns(found.owner, caller) && "MODERATOR" !in roles && "ADMIN" !in roles then Reject(Forbidden)
      else Next
  }

  /** The lookup of `isOwnerOrAdmin`: a profile is first searched by its
      `user_id` equal to the route id (the first such row), and only when
      there is none by primary key. */
  function AdminLookup(dir: Directory, kind: string, id: Id): (r: Found)
    ensures kind != "profile" ==> r == FindByPk(dir, kind, id)
    ensures (kind == "profile" && ProfilesOfUser(dir.profiles, id) != {}) ==> r == Row(Some(id))
    ensures (kind == "profile" && ProfilesOfUser(dir.profiles, id) == {}) ==> r == FindByPk(dir, kind, id)
  {
    if kind == "profile" && ProfilesOfUser(dir.profiles, id) != {} then
      Row(Some(dir.profiles[MinKey(ProfilesOfUser(dir.profiles, id))]))
    else FindByPk(dir, kind, id)
  }

  /** `isOwnerOrAdmin`: a missing id or an unknown kind (comments included)
      is 400; a missing row throws before its 404 check can run; the owner
      and an ADMIN pass, anyone else gets 403. */
  function IsOwnerOrAdmin(dir: Directory, kind: string, entityId: Option<Id>, caller: Option<Id>, roles: set<string>): (r: Decision)
    ensures r != Reject(NotFound)
    ensures r == Reject(BadRequest) <==> entityId.None? || kind !in AdminKinds
    ensures (r == Crash <==>
               entityId.Some? && kind in AdminKinds && AdminLookup(dir, kind, entityId.value).Missing?)
    ensures (r == Next <==>
               && entityId.Some? && kind in AdminKinds && AdminLookup(dir, kind, entityId.value).Row?
               && (Owns(AdminLookup(dir, kind, entityId.value).owner, caller) || "ADMIN" in roles))
  {
    if entityId.None? then Reject(BadRequest)
    else if kind !in AdminKinds then Reject(BadRequest)
    else
      var found := AdminLookup(dir, kind, entityId.value);
      if found.Missing? then Crash
      else if !Owns(found.owner, caller) && "ADMIN" !in roles then Reject(Forbidden)
      else Next
  }

  /** For memories and users, whom the admin gate lets through the moderator
      gate lets through too. */
  lemma AdminGateIsStricter(dir: Directory, kind: string, entityId: Option<Id>, caller: Option<Id>, roles: set<string>)
    requires kind == "memory" || kind == "user"
    ensures IsOwnerOrAdmin(dir, kind, entityId, caller, roles) == Next ==>
              IsOwnerOrModerator(dir, kind, entityId, caller, roles) == Next
  {
  }

  /** A moderator who does not own an existing memory passes the moderator
      gate and is refused by the admin gate. */
  lemma ModeratorIsNotAdmin(dir: Directory, m: Id, caller: Id)
    requires m in dir.memories && dir.memories[m] != caller
    ensures IsOwnerOrModerator(dir, "memory", Some(m), Some(caller), {"MODERATOR"}) == Next
    ensures IsOwnerOrAdmin(dir, "memory", Some(m), Some(caller), {"MODERATOR"}) == Reject(Forbidden)
  {
  }

  /** A user row has no owner column, so an authenticated caller passes
      either gate for a user entity only through a role. */
  lemma UserEntitiesNeedARole(dir: Directory, u: Id, caller: Id, roles: set<string>)
    requires u in dir.users
    ensures IsOwnerOrModerator(dir, "user", Some(u), Some(caller), roles) == Next <==>
            "MODERATOR" in roles || "ADMIN" in roles
    ensures IsOwnerOrAdmin(dir, "user", Some(u), Some(caller), roles) == Next <==> "ADMIN" in roles
  {
  }

  /** Under the admin gate a route id that is a user id with a profile
      selects that user's profile: the caller passes for its own profile by
      naming its own user id, and is refused (without a role) when naming
      another user's id that has a profile. */
  lemma ProfileIsLookedUpByUser(dir: Directory, u: Id, caller: Id, roles: set<string>)
    requires ProfilesOfUser(dir.profiles, u) != {}
    requires "ADMIN" !in roles
    ensures IsOwnerOrAdmin(dir, "profile", Some(u), Some(caller), roles) == Next <==> u == caller
    ensures u != caller ==> IsOwnerOrAdmin(dir, "profile", Some(u), Some(caller), roles) == Reject(Forbidden)
  {
  }

  /** An absent entity never gets the admin gate's 404: the request throws. */
  lemma AdminGateMissingRowCrashes(dir: Directory, m: Id, caller: Option<Id>, roles: set<string>)
    requires m !in dir.memories
    ensures IsOwnerOrAdmin(dir, "memory", Some(m), caller, roles) == Crash
    ensures IsOwnerOrModerator(dir, "memory", Some(m), caller, roles) == Reject(NotFound)
  {
  }
}
