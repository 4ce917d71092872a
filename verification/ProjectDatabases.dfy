/**
 The PostgreSQL role and database of a project. Anyone may change the catalog between two
 statements of the manager, except between a final re-read and the statement behind it;
 any statement may fail.
*/
module ProjectDatabases {
  import opened Options

  datatype Role = Role(oid: nat, comment: Option<string>)

  datatype Database = Database(oid: nat, owner: string, comment: Option<string>)

  datatype Catalog = Catalog(roles: map<string, Role>, databases: map<string, Database>, nextOid: nat)

  datatype Deployment = Deployment(projectId: string, dbName: string, dbRole: string)

  datatype Outcome = Ok | InvalidDeployment | ForeignConflict | StatementFailed

  /** What happens around the statements of a call: numbered interventions, and which statements fail. */
  datatype World = World(foreign: (nat, Catalog) -> Catalog, fails: nat -> bool)

  ghost predicate Quiet(w: World) {
    forall k: nat, c: Catalog :: w.foreign(k, c) == c
  }

  ghost predicate Reliable(w: World) {
    forall k: nat :: !w.fails(k)
  }

  predicate HexDigit(c: char) { '0' <= c <= '9' || 'a' <= c <= 'f' }

  predicate Validated(d: Deployment) {
    && |d.projectId| == 32 && (forall k :: 0 <= k < 32 ==> HexDigit(d.projectId[k]))
    && d.dbName == "conductor_airflow_" + d.projectId
    && d.dbRole == "conductor_airflow_" + d.projectId
  }

  function OwnershipComment(projectId: string): string { "conductor.project_id=" + projectId }

  predicate OwnedRole(row: Role, d: Deployment) { row.comment == Some(OwnershipComment(d.projectId)) }

  predicate OwnedDatabase(row: Database, d: Deployment) {
    row.owner == d.dbRole && row.comment == Some(OwnershipComment(d.projectId))
  }

  function RoleRow(c: Catalog, name: string): Option<Role> {
    if name in c.roles then Some(c.roles[name]) else None
  }

  function DatabaseRow(c: Catalog, name: string): Option<Database> {
    if name in c.databases then Some(c.databases[name]) else None
  }

  // ---- What the calls do when nobody interferes ----

  function WithRole(c: Catalog, d: Deployment): Catalog {
    Catalog(c.roles[d.dbRole := Role(c.nextOid, Some(OwnershipComment(d.projectId)))], c.databases, c.nextOid + 1)
  }

  function WithDatabase(c: Catalog, d: Deployment, comment: Option<string>): Catalog {
    Catalog(c.roles, c.databases[d.dbName := Database(c.nextOid, d.dbRole, comment)], c.nextOid + 1)
  }

  function RoleEnsured(c: Catalog, d: Deployment): Option<Catalog> {
    match RoleRow(c, d.dbRole)
    case None => Some(WithRole(c, d))
    case Some(row) => if OwnedRole(row, d) then Some(c) else None
  }

  function DatabaseEnsured(c: Catalog, d: Deployment): Option<Catalog> {
    match RoleRow(c, d.dbRole)
    case None => None
    case Some(role) =>
      if !OwnedRole(role, d) then None
      else
        match DatabaseRow(c, d.dbName)
        case None => Some(WithDatabase(c, d, Some(OwnershipComment(d.projectId))))
        case Some(row) => if OwnedDatabase(row, d) then Some(c) else None
  }

  function DatabaseDropped(c: Catalog, d: Deployment): Option<Catalog> {
    match DatabaseRow(c, d.dbName)
    case None => Some(c)
    case Some(row) => if OwnedDatabase(row, d) then Some(c.(databases := c.databases - {d.dbName})) else None
  }

  /** A role that owns a database cannot be dropped. */
  predicate OwnsNothing(c: Catalog, role: string) {
    forall name <- c.databases :: c.databases[name].owner != role
  }

  function RoleDropped(c: Catalog, d: Deployment): Option<Catalog> {
    match RoleRow(c, d.dbRole)
    case None => Some(c)
    case Some(row) =>
      if OwnedRole(row, d) && OwnsNothing(c, d.dbRole) then Some(c.(roles := c.roles - {d.dbRole})) else None
  }

  predicate Absent(c: Catalog, d: Deployment) { d.dbName !in c.databases && d.dbRole !in c.roles }

  /** Ensuring again finds what the first call left. */
  lemma EnsuringIsIdempotent(c: Catalog, d: Deployment)
    ensures RoleEnsured(c, d).Some? ==>
              RoleEnsured(RoleEnsured(c, d).value, d) == RoleEnsured(c, d)
    ensures DatabaseEnsured(c, d).Some? ==>
              var after := DatabaseEnsured(c, d).value;
              DatabaseEnsured(after, d) == Some(after) && RoleEnsured(after, d) == Some(after)
  {
  }

  /** Ensuring role and database and dropping both leaves every other row and neither of the two. */
  lemma EnsureThenDropIsAbsent(c: Catalog, d: Deployment)
    requires RoleEnsured(c, d).Some? && DatabaseEnsured(RoleEnsured(c, d).value, d).Some?
    requires forall name <- c.databases :: c.databases[name].owner == d.dbRole ==> name == d.dbName
    ensures var ensured := DatabaseEnsured(RoleEnsured(c, d).value, d).value;
            && DatabaseDropped(ensured, d).Some?
            && var dropped := DatabaseDropped(ensured, d).value;
               && RoleDropped(dropped, d).Some?
               && var left := RoleDropped(dropped, d).value;
                  && Absent(left, d)
                  && left.roles == c.roles - {d.dbRole} && left.databases == c.databases - {d.dbName}
  {
    var ensured := DatabaseEnsured(RoleEnsured(c, d).value, d).value;
    var dropped := DatabaseDropped(ensured, d).value;
    assert dropped.databases == c.databases - {d.dbName};
    assert OwnsNothing(dropped, d.dbRole);
    assert RoleDropped(dropped, d).value.roles == c.roles - {d.dbRole};
  }

  // ---- What the names and marks are ----

  /** Thirty-two hexadecimal digits in lower case. */
  predicate ProjectId(id: string) { |id| == 32 && forall c <- id :: c in "0123456789abcdef" }

  /** A deployment is valid exactly when role and database bear the name made of its project's id. */
  lemma ValidatedExactly(d: Deployment)
    ensures Validated(d) <==> && ProjectId(d.projectId) && d.dbName == "conductor_airflow_" + d.projectId
                              && d.dbRole == "conductor_airflow_" + d.projectId
  {
    assert forall c: char :: HexDigit(c) <==> c in "0123456789abcdef";
    var id := d.projectId;
    if Validated(d) {
      forall c | c in id ensures c in "0123456789abcdef" { var k :| 0 <= k < |id| && id[k] == c; }
    }
    if ProjectId(id) {
      forall k | 0 <= k < 32 ensures HexDigit(id[k]) { assert id[k] in id; }
    }
  }

  /** Somebody else's role: it bears the name, and any comment but the project's mark, or none. */
  predicate StrangersRole(c: Catalog, d: Deployment) {
    d.dbRole in c.roles && c.roles[d.dbRole].comment != Some("conductor.project_id=" + d.projectId)
  }

  lemma StrangersAreNotOwned(c: Catalog, d: Deployment)
    ensures StrangersRole(c, d) <==> d.dbRole in c.roles && !OwnedRole(c.roles[d.dbRole], d)
  {
  }

  predicate StrangersDatabase(c: Catalog, d: Deployment) {
    d.dbName in c.databases
    && (c.databases[d.dbName].owner != d.dbRole
        || c.databases[d.dbName].comment != Some("conductor.project_id=" + d.projectId))
  }

  /** Ensuring fails exactly on a stranger's object, or without the project's role; what it adds carries the mark. */
  lemma EnsuredExactly(c: Catalog, d: Deployment)
    ensures RoleEnsured(c, d).None? <==> StrangersRole(c, d)
    ensures DatabaseEnsured(c, d).None? <==> d.dbRole !in c.roles || StrangersRole(c, d) || StrangersDatabase(c, d)
    ensures RoleEnsured(c, d).Some? ==>
              var after := RoleEnsured(c, d).value;
              && d.dbRole in after.roles && after.roles[d.dbRole].comment == Some("conductor.project_id=" + d.projectId)
              && after.roles - {d.dbRole} == c.roles - {d.dbRole} && after.databases == c.databases
              && (d.dbRole in c.roles ==> after == c)
    ensures DatabaseEnsured(c, d).Some? ==>
              var after := DatabaseEnsured(c, d).value;
              && d.dbName in after.databases && after.databases[d.dbName].owner == d.dbRole
              && after.databases[d.dbName].comment == Some("conductor.project_id=" + d.projectId)
              && after.databases - {d.dbName} == c.databases - {d.dbName} && after.roles == c.roles
              && (d.dbName in c.databases ==> after == c)
  {
  }

  /** Dropping fails exactly on a stranger's object, or on a role that owns a database; it takes only that object. */
  lemma DroppedExactly(c: Catalog, d: Deployment)
    ensures DatabaseDropped(c, d).None? <==> StrangersDatabase(c, d)
    ensures RoleDropped(c, d).None?
            <==> && d.dbRole in c.roles
                 && (StrangersRole(c, d) || exists name <- c.databases :: c.databases[name].owner == d.dbRole)
    ensures DatabaseDropped(c, d).Some? ==> DatabaseDropped(c, d).value == c.(databases := c.databases - {d.dbName})
    ensures RoleDropped(c, d).Some? ==> RoleDropped(c, d).value == c.(roles := c.roles - {d.dbRole})
  {
    assert d.dbName !in c.databases ==> c.databases - {d.dbName} == c.databases;
    assert d.dbRole !in c.roles ==> c.roles - {d.dbRole} == c.roles;
  }

  // ---- Without interference, but with failing statements ----

  /** The call gets as far as creating the database. */
  predicate Creates(c: Catalog, d: Deployment, w: World) {
    && Validated(d) && !w.fails(1) && !w.fails(3) && !w.fails(5) && !w.fails(6)
    && RoleRow(c, d.dbRole).Some? && OwnedRole(c.roles[d.dbRole], d) && DatabaseRow(c, d.dbName).None?
  }

  /** The read-back fails; or marking fails, and then the re-read or the drop that should undo the creation. */
  predicate CannotUndo(w: World) { w.fails(7) || (w.fails(9) && (w.fails(11) || w.fails(12))) }

  /** The catalog an `EnsureDatabase` leaves when nobody interferes, for every pattern of failing statements. */
  function LeftByEnsure(c: Catalog, d: Deployment, w: World): Catalog {
    if !Creates(c, d, w) then c
    else if CannotUndo(w) then WithDatabase(c, d, None)
    else if w.fails(9) then c.(nextOid := c.nextOid + 1)
    else WithDatabase(c, d, Some(OwnershipComment(d.projectId)))
  }

  /** Marking what was just created, and dropping it again. */
  lemma CreatedThenMarked(c: Catalog, d: Deployment)
    ensures var made := WithDatabase(c, d, None);
            && ReadBack(made.databases[d.dbName], d)
            && Commented(made, d) == WithDatabase(c, d, Some(OwnershipComment(d.projectId)))
            && (d.dbName !in c.databases ==>
                  made.(databases := made.databases - {d.dbName}) == c.(nextOid := c.nextOid + 1))
            && OwnedDatabase(Commented(made, d).databases[d.dbName], d)
  {
    assert d.dbName !in c.databases ==> WithDatabase(c, d, None).databases - {d.dbName} == c.databases;
  }

  predicate Unmarked(c: Catalog, d: Deployment) {
    d.dbName in c.databases && c.databases[d.dbName].comment.None?
  }

  /**
   A database without its mark is left exactly when the call created one and could not undo it
   or when it was there before; and it is foreign to every later ensure and drop.
  */
  lemma UnmarkedLeftExactly(c: Catalog, d: Deployment, w: World)
    ensures Unmarked(LeftByEnsure(c, d, w), d) <==> Unmarked(c, d) || (Creates(c, d, w) && CannotUndo(w))
    ensures Unmarked(LeftByEnsure(c, d, w), d) ==>
              var left := LeftByEnsure(c, d, w);
              && DatabaseEnsured(left, d).None? && DatabaseDropped(left, d).None?
              && forall again: World :: LeftByEnsure(left, d, again) == left
  {
  }

  // ---- Marks ----

  function Commented(c: Catalog, d: Deployment): Catalog
    requires d.dbName in c.databases
  {
    c.(databases := c.databases[d.dbName :=
      c.databases[d.dbName].(comment := Some(OwnershipComment(d.projectId)))])
  }

  /**
   The mark lands on whatever database bears the name after others had their turn: on another
   one than the row read back exactly when they replaced it in between.
  */
  ghost predicate MarkLands(w: World, d: Deployment, read: Event, mark: Event) {
    && read.ReRead? && mark.Marked?
    && exists c: Catalog ::
         DatabaseRow(c, d.dbName) == Some(read.row) && DatabaseRow(w.foreign(8, c), d.dbName) == Some(mark.row)
  }

  /** A mark makes a database the manager's own exactly when its owner is the project's role, whoever created it. */
  lemma MarkedIsOwnedExactly(c: Catalog, d: Deployment)
    requires d.dbName in c.databases
    ensures DatabaseDropped(Commented(c, d), d).Some? <==> c.databases[d.dbName].owner == d.dbRole
  {
  }

  // ---- The manager ----

  /** What the manager did to the catalog, with the rows as they were. */
  datatype Event =
    | CreatedRole(name: string)
    | CreatedDatabase(name: string, roleRow: Role)
    | ReRead(row: Database)
    | Marked(name: string, row: Database)
    | DroppedRole(name: string, roleRow: Role)
    | DroppedDatabase(name: string, databaseRow: Database)

  predicate CreationOf(e: Event, name: string) { e.CreatedDatabase? && e.name == name }

  /**
   A drop took an object with the mark of its project, or the unmarked database just created and
   read back; a database was created for a role with the mark.
  */
  ghost predicate JustifiedAt(events: seq<Event>, i: nat)
    requires i < |events|
  {
    match events[i]
    case DroppedRole(name, row) =>
      exists id: string ::
        ProjectId(id) && name == "conductor_airflow_" + id && row.comment == Some("conductor.project_id=" + id)
    case DroppedDatabase(name, row) =>
      || (exists id: string ::
            && ProjectId(id) && name == "conductor_airflow_" + id
            && row.owner == name && row.comment == Some("conductor.project_id=" + id))
      || (row.comment.None? && row.owner == name
          && (|| (i >= 2 && CreationOf(events[i - 2], name) && events[i - 1] == ReRead(row))
              || (i >= 3 && CreationOf(events[i - 3], name) && events[i - 2] == ReRead(row) && events[i - 1].Marked?)))
    case CreatedDatabase(name, row) =>
      exists id: string ::
        ProjectId(id) && name == "conductor_airflow_" + id && row.comment == Some("conductor.project_id=" + id)
    case _ => true
  }

  ghost predicate Justified(events: seq<Event>) {
    forall i :: 0 <= i < |events| ==> JustifiedAt(events, i)
  }

  lemma MoreEvents(events: seq<Event>, more: seq<Event>)
    requires Justified(events)
    requires forall i :: |events| <= i < |events| + |more| ==> JustifiedAt(events + more, i)
    ensures Justified(events + more)
  {
    var all := events + more;
    forall i | 0 <= i < |all| ensures JustifiedAt(all, i) {
      if i < |events| {
        assert JustifiedAt(events, i);
        assert all[i] == events[i] && (i >= 1 ==> all[i - 1] == events[i - 1])
            && (i >= 2 ==> all[i - 2] == events[i - 2]) && (i >= 3 ==> all[i - 3] == events[i - 3]);
      }
    }
  }

  /** What a creation adds behind the creation itself: the read-back, perhaps the mark, perhaps a drop of the row read. */
  ghost predicate MarkEvents(more: seq<Event>, d: Deployment) {
    || more == []
    || exists row: Database :: ReadBack(row, d) && MarkTail(more, d, row)
  }

  predicate ReadBack(row: Database, d: Deployment) { row.owner == d.dbRole && row.comment == None }

  ghost predicate MarkTail(more: seq<Event>, d: Deployment, row: Database) {
    || more == [ReRead(row)]
    || more == [ReRead(row), DroppedDatabase(d.dbName, row)]
    || exists other: Database :: || more == [ReRead(row), Marked(d.dbName, other)]
                                 || more == [ReRead(row), Marked(d.dbName, other), DroppedDatabase(d.dbName, row)]
  }

  /** What marking adds, and the same with a drop of the row read back. */
  lemma MarkedTail(more: seq<Event>, d: Deployment, row: Database, done: bool)
    requires ReadBack(row, d) && |more| == (if done then 2 else 1) && more[0] == ReRead(row)
    requires done ==> more[1].Marked? && more[1].name == d.dbName
    ensures MarkEvents(more, d) && MarkEvents(more + [DroppedDatabase(d.dbName, row)], d)
    ensures !more[|more| - 1].DroppedDatabase?
  {
    var dropped := more + [DroppedDatabase(d.dbName, row)];
    if done {
      var other := more[1].row;
      assert more == [ReRead(row), Marked(d.dbName, other)];
      assert dropped == [ReRead(row), Marked(d.dbName, other), DroppedDatabase(d.dbName, row)];
    } else {
      assert more == [ReRead(row)] && dropped == [ReRead(row), DroppedDatabase(d.dbName, row)];
    }
    assert MarkTail(more, d, row) && MarkTail(dropped, d, row);
  }

  lemma NothingMarked(before: seq<Event>, d: Deployment)
    ensures MarkEvents([], d) && before + [] == before
  {
  }

  /** What a call adds: nothing, a created role, a justified drop, or a creation with its read-back and mark. */
  ghost predicate Adds(before: seq<Event>, after: seq<Event>, d: Deployment) {
    || after == before
    || after == before + [CreatedRole(d.dbRole)]
    || (exists row: Role :: OwnedRole(row, d) && after == before + [DroppedRole(d.dbRole, row)])
    || (exists row: Database :: OwnedDatabase(row, d) && after == before + [DroppedDatabase(d.dbName, row)])
    || (exists row: Role, more: seq<Event> ::
          OwnedRole(row, d) && MarkEvents(more, d) && after == before + [CreatedDatabase(d.dbName, row)] + more)
  }

  /** Whatever anyone else does, every call leaves only justified drops behind. */
  lemma CallsStayJustified(before: seq<Event>, after: seq<Event>, d: Deployment)
    requires Validated(d) && Justified(before) && Adds(before, after, d)
    ensures Justified(after)
  {
    ValidatedExactly(d);
    var more := after[|before|..];
    assert after == before + more;
    MoreEvents(before, more);
  }

  datatype Call =
    | EnsuringRole(d: Deployment, w: World)
    | EnsuringDatabase(d: Deployment, w: World)
    | DroppingDatabase(d: Deployment, w: World)
    | DroppingRole(d: Deployment, w: World)
    | VerifyingAbsent(d: Deployment, w: World)

  class DatabaseManager {
    var catalog: Catalog
    ghost var events: seq<Event>

    constructor (c: Catalog)
      ensures catalog == c && events == []
    {
      catalog, events := c, [];
    }

    /** Somebody else changes the catalog. */
    method Interlude(w: World, k: nat)
      modifies this`catalog
      ensures catalog == w.foreign(k, old(catalog))
    {
      catalog := w.foreign(k, catalog);
    }

    /** Creates the role with its comment in one transaction. */
    method CreateRole(d: Deployment, w: World, k: nat) returns (done: bool)
      modifies this
      ensures done == (!w.fails(k) && d.dbRole !in old(catalog).roles)
      ensures done ==> catalog == WithRole(old(catalog), d) && events == old(events) + [CreatedRole(d.dbRole)]
      ensures !done ==> catalog == old(catalog) && events == old(events)
    {
      done := !w.fails(k) && d.dbRole !in catalog.roles;
      if done {
        catalog := WithRole(catalog, d);
        events := events + [CreatedRole(d.dbRole)];
      }
    }

    method CreateDatabase(d: Deployment, w: World, k: nat) returns (done: bool)
      modifies this
      ensures done == (!w.fails(k) && d.dbName !in old(catalog).databases && d.dbRole in old(catalog).roles)
      ensures done ==> catalog == WithDatabase(old(catalog), d, None)
                       && events == old(events) + [CreatedDatabase(d.dbName, old(catalog).roles[d.dbRole])]
      ensures !done ==> catalog == old(catalog) && events == old(events)
    {
      done := !w.fails(k) && d.dbName !in catalog.databases && d.dbRole in catalog.roles;
      if done {
        catalog := WithDatabase(catalog, d, None);
        events := events + [CreatedDatabase(d.dbName, catalog.roles[d.dbRole])];
      }
    }

    /** Sets the comment of whatever database has the name. */
    method CommentOnDatabase(d: Deployment, w: World, k: nat) returns (done: bool)
      modifies this
      ensures done == (!w.fails(k) && d.dbName in old(catalog).databases)
      ensures done ==> catalog == Commented(old(catalog), d)
                       && events == old(events) + [Marked(d.dbName, old(catalog).databases[d.dbName])]
      ensures !done ==> catalog == old(catalog) && events == old(events)
    {
      done := !w.fails(k) && d.dbName in catalog.databases;
      if done {
        events := events + [Marked(d.dbName, catalog.databases[d.dbName])];
        catalog := Commented(catalog, d);
      }
    }

    method DropDatabaseNamed(name: string, w: World, k: nat) returns (done: bool)
      modifies this
      ensures done == (!w.fails(k) && name in old(catalog).databases)
      ensures done ==>
        && catalog == old(catalog).(databases := old(catalog).databases - {name})
        && events == old(events) + [DroppedDatabase(name, old(catalog).databases[name])]
      ensures !done ==> catalog == old(catalog) && events == old(events)
    {
      done := !w.fails(k) && name in catalog.databases;
      if done {
        events := events + [DroppedDatabase(name, catalog.databases[name])];
        catalog := catalog.(databases := catalog.databases - {name});
      }
    }

    method DropRoleNamed(name: string, w: World, k: nat) returns (done: bool)
      modifies this
      ensures done == (!w.fails(k) && name in old(catalog).roles && OwnsNothing(old(catalog), name))
      ensures done ==>
        && catalog == old(catalog).(roles := old(catalog).roles - {name})
        && events == old(events) + [DroppedRole(name, old(catalog).roles[name])]
      ensures !done ==> catalog == old(catalog) && events == old(events)
    {
      done := !w.fails(k) && name in catalog.roles && OwnsNothing(catalog, name);
      if done {
        events := events + [DroppedRole(name, catalog.roles[name])];
        catalog := catalog.(roles := catalog.roles - {name});
      }
    }

    /** Creates the role with its mark, or accepts one that carries it. Nothing is dropped. */
    method EnsureRole(d: Deployment, w: World) returns (r: Outcome)
      modifies this
      ensures !Validated(d) ==> r == InvalidDeployment && catalog == old(catalog) && events == old(events)
      ensures events == old(events) || events == old(events) + [CreatedRole(d.dbRole)]
      ensures Validated(d) && !w.fails(1) && StrangersRole(w.foreign(0, old(catalog)), d) ==>
                r == ForeignConflict && catalog == w.foreign(0, old(catalog)) && events == old(events)
      ensures Adds(old(events), events, d)
      ensures Quiet(w) && Reliable(w) && Validated(d) ==>
                match RoleEnsured(old(catalog), d)
                case Some(c) => r == Ok && catalog == c
                case None => r == ForeignConflict && catalog == old(catalog)
      ensures Quiet(w) && r != Ok ==> catalog == old(catalog)
      ensures r == Ok ==> d.dbRole in catalog.roles && OwnedRole(catalog.roles[d.dbRole], d)
    {
      if !Validated(d) {
        return InvalidDeployment;
      }
      Interlude(w, 0);
      if w.fails(1) {
        return StatementFailed;
      }
      var role := RoleRow(catalog, d.dbRole);
      if role.Some? {
        return if OwnedRole(role.value, d) then Ok else ForeignConflict;
      }
      Interlude(w, 2);
      var done := CreateRole(d, w, 3);
      return if done then Ok else StatementFailed;
    }

    /**
     Creates the database, proves it is the one read back, and marks it. When the mark fails, only
     the database read back, unmarked and unchanged, is dropped again.
    */
    method EnsureDatabase(d: Deployment, w: World) returns (r: Outcome)
      modifies this
      ensures !Validated(d) ==> r == InvalidDeployment && catalog == old(catalog) && events == old(events)
      ensures || events == old(events)
              || exists row: Role, more: seq<Event> ::
                   && OwnedRole(row, d) && MarkEvents(more, d)
                   && events == old(events) + [CreatedDatabase(d.dbName, row)] + more
                   && (r == Ok ==> more != [] && !more[|more| - 1].DroppedDatabase?)
      ensures Validated(d) && !w.fails(1) && StrangersRole(w.foreign(0, old(catalog)), d) ==>
                r == ForeignConflict && catalog == w.foreign(0, old(catalog)) && events == old(events)
      ensures Adds(old(events), events, d)
      ensures Quiet(w) ==> catalog == LeftByEnsure(old(catalog), d, w)
      ensures Quiet(w) && Reliable(w) && Validated(d) ==>
                match DatabaseEnsured(old(catalog), d)
                case Some(c) => r == Ok && catalog == c
                case None => r == ForeignConflict && catalog == old(catalog)
      ensures r == Ok ==> d.dbName in catalog.databases && OwnedDatabase(catalog.databases[d.dbName], d)
    {
      hide MarkEvents, OwnershipComment, MarkLands, OwnedRole, OwnedDatabase, StrangersRole;
      CreatedThenMarked(catalog, d);
      StrangersAreNotOwned(w.foreign(0, catalog), d);
      if !Validated(d) {
        return InvalidDeployment;
      }
      Interlude(w, 0);
      if w.fails(1) {
        return StatementFailed;
      }
      var role := RoleRow(catalog, d.dbRole);
      if role.None? || !OwnedRole(role.value, d) {
        return ForeignConflict;
      }
      Interlude(w, 2);
      if w.fails(3) {
        return StatementFailed;
      }
      var database := DatabaseRow(catalog, d.dbName);
      if database.Some? {
        return if OwnedDatabase(database.value, d) then Ok else ForeignConflict;
      }
      Interlude(w, 4);
      if w.fails(5) {
        return StatementFailed;
      }
      if RoleRow(catalog, d.dbRole) != role {
        return ForeignConflict;
      }
      var done := CreateDatabase(d, w, 6);
      if !done {
        return StatementFailed;
      }
      r := MarkCreated(d, w);
    }

    /** The second half: read back and mark, then read again or compensate. */
    method MarkCreated(d: Deployment, w: World) returns (r: Outcome)
      modifies this
      ensures exists more: seq<Event> ::
                MarkEvents(more, d) && events == old(events) + more
                && (r == Ok ==> more != [] && !more[|more| - 1].DroppedDatabase?)
      ensures Quiet(w) && DatabaseRow(old(catalog), d.dbName).Some?
              && ReadBack(old(catalog).databases[d.dbName], d) ==>
                && (r == Ok <==> !w.fails(7) && !w.fails(9) && !w.fails(11))
                && catalog == if CannotUndo(w) then old(catalog)
                              else if w.fails(9) then old(catalog).(databases := old(catalog).databases - {d.dbName})
                              else Commented(old(catalog), d)
      ensures |events| >= |old(events)| + 2 && events[|old(events)| + 1].Marked? ==>
                MarkLands(w, d, events[|old(events)|], events[|old(events)| + 1])
      ensures r == Ok ==> d.dbName in catalog.databases && OwnedDatabase(catalog.databases[d.dbName], d)
    {
      hide MarkEvents, OwnershipComment;
      ghost var before := events;
      NothingMarked(before, d);
      Interlude(w, 7);
      if w.fails(7) {
        return StatementFailed;
      }
      var created := DatabaseRow(catalog, d.dbName);
      if created.None? || created.value.owner != d.dbRole || created.value.comment.Some? {
        return ForeignConflict;
      }
      events := events + [ReRead(created.value)];
      Interlude(w, 8);
      var done := CommentOnDatabase(d, w, 9);
      ghost var more := events[|before|..];
      assert events == before + more;
      MarkedTail(more, d, created.value, done);
      hide OwnedDatabase;
      r := ReadAgain(d, w, created.value, done);
      assert before + more + [DroppedDatabase(d.dbName, created.value)]
          == before + (more + [DroppedDatabase(d.dbName, created.value)]);
    }

    /** Reads the row again: it carries the mark, or the database is dropped if it is the one read before. */
    method ReadAgain(d: Deployment, w: World, created: Database, done: bool) returns (r: Outcome)
      modifies this
      ensures events == old(events) || (r != Ok && events == old(events) + [DroppedDatabase(d.dbName, created)])
      ensures r == Ok ==> done && d.dbName in catalog.databases && OwnedDatabase(catalog.databases[d.dbName], d)
      ensures Quiet(w) ==>
                var row := DatabaseRow(old(catalog), d.dbName);
                var marked := done && row.Some? && row.value.oid == created.oid && OwnedDatabase(row.value, d);
                && (r == Ok <==> !w.fails(11) && marked)
                && catalog == if !w.fails(11) && !marked && row == Some(created) && !w.fails(12)
                              then old(catalog).(databases := old(catalog).databases - {d.dbName})
                              else old(catalog)
    {
      Interlude(w, 10);
      if w.fails(11) {
        return StatementFailed;
      }
      var current := DatabaseRow(catalog, d.dbName);
      if done && current.Some? && current.value.oid == created.oid && OwnedDatabase(current.value, d) {
        return Ok;
      }
      if current == Some(created) {
        var dropped := DropDatabaseNamed(d.dbName, w, 12);
        if !dropped {
          return StatementFailed;
        }
      }
      return if done then ForeignConflict else StatementFailed;
    }

    /** Drops the database that carries the mark, read again right before; nothing else is dropped. */
    method DropDatabase(d: Deployment, w: World) returns (r: Outcome)
      modifies this
      ensures !Validated(d) ==> r == InvalidDeployment && catalog == old(catalog) && events == old(events)
      ensures || events == old(events)
              || (r == Ok && (exists row: Database ::
                                OwnedDatabase(row, d) && events == old(events) + [DroppedDatabase(d.dbName, row)]))
      ensures Validated(d) && !w.fails(1) && StrangersDatabase(w.foreign(0, old(catalog)), d) ==>
                r == ForeignConflict && catalog == w.foreign(0, old(catalog)) && events == old(events)
      ensures Adds(old(events), events, d)
      ensures Quiet(w) && Reliable(w) && Validated(d) ==>
                match DatabaseDropped(old(catalog), d)
                case Some(c) => r == Ok && catalog == c
                case None => r == ForeignConflict && catalog == old(catalog)
      ensures Quiet(w) && r != Ok ==> catalog == old(catalog)
      ensures r == Ok ==> d.dbName !in catalog.databases
    {
      if !Validated(d) {
        return InvalidDeployment;
      }
      Interlude(w, 0);
      if w.fails(1) {
        return StatementFailed;
      }
      var database := DatabaseRow(catalog, d.dbName);
      if database.None? {
        return Ok;
      }
      if !OwnedDatabase(database.value, d) {
        return ForeignConflict;
      }
      // Connections are revoked, refused and terminated; the catalog rows stay as they are.
      Interlude(w, 2);
      if w.fails(3) || w.fails(4) {
        return StatementFailed;
      }
      if DatabaseRow(catalog, d.dbName) != database {
        return ForeignConflict;
      }
      var done := DropDatabaseNamed(d.dbName, w, 5);
      return if done then Ok else StatementFailed;
    }

    /** Drops the role that carries the mark, read again right before. */
    method DropRole(d: Deployment, w: World) returns (r: Outcome)
      modifies this
      ensures !Validated(d) ==> r == InvalidDeployment && catalog == old(catalog) && events == old(events)
      ensures || events == old(events)
              || (r == Ok && (exists row: Role ::
                                OwnedRole(row, d) && events == old(events) + [DroppedRole(d.dbRole, row)]))
      ensures Validated(d) && !w.fails(1) && StrangersRole(w.foreign(0, old(catalog)), d) ==>
                r == ForeignConflict && catalog == w.foreign(0, old(catalog)) && events == old(events)
      ensures Adds(old(events), events, d)
      ensures Quiet(w) && Reliable(w) && Validated(d) ==>
                match RoleDropped(old(catalog), d)
                case Some(c) => r == Ok && catalog == c
                case None => r != Ok && catalog == old(catalog)
      ensures Quiet(w) && r != Ok ==> catalog == old(catalog)
      ensures r == Ok ==> d.dbRole !in catalog.roles
    {
      if !Validated(d) {
        return InvalidDeployment;
      }
      Interlude(w, 0);
      if w.fails(1) {
        return StatementFailed;
      }
      var role := RoleRow(catalog, d.dbRole);
      if role.None? {
        return Ok;
      }
      if !OwnedRole(role.value, d) {
        return ForeignConflict;
      }
      Interlude(w, 2);
      if w.fails(3) {
        return StatementFailed;
      }
      if RoleRow(catalog, d.dbRole) != role {
        return ForeignConflict;
      }
      var done := DropRoleNamed(d.dbRole, w, 4);
      return if done then Ok else StatementFailed;
    }

    /** Whether both are gone; an object without the mark under one of the names is a conflict. */
    method VerifyAbsent(d: Deployment, w: World) returns (r: Outcome, absent: bool)
      modifies this
      ensures events == old(events)
      ensures absent ==> r == Ok
      ensures Quiet(w) ==> catalog == old(catalog) && (r == Ok ==> absent == Absent(catalog, d))
      ensures Quiet(w) && Reliable(w) && Validated(d) ==>
                (r == Ok <==> && (d.dbName in catalog.databases ==> OwnedDatabase(catalog.databases[d.dbName], d))
                              && (d.dbRole in catalog.roles ==> OwnedRole(catalog.roles[d.dbRole], d)))
    {
      if !Validated(d) {
        return InvalidDeployment, false;
      }
      Interlude(w, 0);
      if w.fails(1) {
        return StatementFailed, false;
      }
      var database := DatabaseRow(catalog, d.dbName);
      Interlude(w, 2);
      if w.fails(3) {
        return StatementFailed, false;
      }
      var role := RoleRow(catalog, d.dbRole);
      if (database.Some? && !OwnedDatabase(database.value, d)) || (role.Some? && !OwnedRole(role.value, d)) {
        return ForeignConflict, false;
      }
      return Ok, database.None? && role.None?;
    }

    // ---- Sequences of calls ----

    method Perform(call: Call)
      modifies this
      ensures Justified(old(events)) ==> Justified(events)
    {
      ghost var before := events;
      match call {
        case EnsuringRole(d, w) => var _ := EnsureRole(d, w);
        case EnsuringDatabase(d, w) => var _ := EnsureDatabase(d, w);
        case DroppingDatabase(d, w) => var _ := DropDatabase(d, w);
        case DroppingRole(d, w) => var _ := DropRole(d, w);
        case VerifyingAbsent(d, w) => var _, _ := VerifyAbsent(d, w);
      }
      hide Adds, Justified;
      if Validated(call.d) && Justified(before) {
        CallsStayJustified(before, events, call.d);
      }
    }

    /**
     Any sequence of calls, for any projects, with any failures and anyone changing the catalog
     in between: every drop made took an object with its project's mark, or the unmarked
     database just created and read back.
    */
    method PerformAll(calls: seq<Call>)
      modifies this
      ensures Justified(old(events)) ==> Justified(events)
    {
      hide Justified;
      for k := 0 to |calls|
        invariant Justified(old(events)) ==> Justified(events)
      {
        Perform(calls[k]);
      }
    }

    /** Ensured, dropped and verified, undisturbed: nothing of the project is left, and nothing else is touched. */
    method EnsureDropVerify(d: Deployment, w: World) returns (absent: bool)
      requires Quiet(w) && Reliable(w) && Validated(d)
      requires RoleEnsured(catalog, d).Some? && DatabaseEnsured(RoleEnsured(catalog, d).value, d).Some?
      requires forall name <- catalog.databases :: catalog.databases[name].owner == d.dbRole ==> name == d.dbName
      modifies this
      ensures absent
      ensures catalog.roles == old(catalog).roles - {d.dbRole}
      ensures catalog.databases == old(catalog).databases - {d.dbName}
    {
      EnsureThenDropIsAbsent(catalog, d);
      hide Quiet, Reliable, Validated, RoleEnsured, DatabaseEnsured, DatabaseDropped, RoleDropped;
      var r := EnsureRole(d, w);
      r := EnsureDatabase(d, w);
      r := DropDatabase(d, w);
      r := DropRole(d, w);
      r, absent := VerifyAbsent(d, w);
    }
  }
}
