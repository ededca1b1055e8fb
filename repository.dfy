/**
  The Spring Data repositories the initializer calls (package com.base.spring.repository),
  as in-memory stores holding the rows saved so far, with the queries and saves it uses.
*/
module Repository {
  import opened Wrappers
  import opened Domain

  /** The types that have a root node among the given nodes. */
  function RootTypes(trees: multiset<TreeEntity>): (types: set<TreeType>)
    ensures forall t :: t in types <==> exists n :: n in trees && n.IsRoot() && n.kind == t
  {
    set n | n in trees && n.IsRoot() :: n.kind
  }

  /** Whether a node with that name is among the given nodes. */
  predicate Named(trees: multiset<TreeEntity>, name: string) {
    exists n :: n in trees && n.name == name
  }

  /** The tree table: every saved node, as often as it was saved. */
  class TreeRepository {
    var trees: multiset<TreeEntity>

    constructor (rows: multiset<TreeEntity>)
      ensures trees == rows
    {
      trees := rows;
    }

    /** findTreeTypes: the types that have a root node in the store. */
    function FindTreeTypes(): (types: set<TreeType>)
      reads this
      ensures forall t :: t in types <==> exists n :: n in trees && n.IsRoot() && n.kind == t
    {
      RootTypes(trees)
    }

    /** findByName: the stored nodes with that name. */
    function FindByName(name: string): (found: set<TreeEntity>)
      reads this
      ensures forall n :: n in found <==> n in trees && n.name == name
      ensures found != {} <==> Named(trees, name)
    {
      set n | n in trees && n.name == name
    }

    /** findRoot: a stored root node of that type, if there is one. */
    method FindRoot(t: TreeType) returns (root: Option<TreeEntity>)
      ensures root.Some? <==> t in FindTreeTypes()
      ensures root.Some? ==> root.value in trees && root.value.IsRoot() && root.value.kind == t
    {
      if t in FindTreeTypes() {
        var n :| n in trees && n.IsRoot() && n.kind == t;
        root := Some(n);
      } else {
        root := None;
      }
    }

    method Save(node: TreeEntity)
      modifies this
      ensures trees == old(trees) + multiset{node}
    {
      trees := trees + multiset{node};
    }

    /** saveAll: every node of the batch is stored once more. */
    method SaveAll(batch: seq<TreeEntity>)
      modifies this
      ensures trees == old(trees) + multiset(batch)
    {
      trees := trees + multiset(batch);
    }
  }

  /** The user table: the rows saved so far, each a snapshot of a UserEntity's fields. */
  class UserRepository {
    var users: set<UserRecord>

    constructor (rows: set<UserRecord>)
      ensures users == rows
    {
      users := rows;
    }

    /** Whether a stored user has that login name. */
    predicate HasLogin(login: string)
      reads this
    {
      exists u :: u in users && u.loginName == login
    }

    /** findByLoginName: a stored user with that login name, if there is one. */
    method FindByLoginName(login: string) returns (user: Option<UserRecord>)
      ensures user.Some? <==> HasLogin(login)
      ensures user.Some? ==> user.value in users && user.value.loginName == login
    {
      if HasLogin(login) {
        var u :| u in users && u.loginName == login;
        user := Some(u);
      } else {
        user := None;
      }
    }

    /** save: the entity's current field values become a row. */
    method Save(user: UserEntity)
      modifies this
      ensures users == old(users) + {user.Record()}
    {
      users := users + {user.Record()};
    }
  }

  /** The first row with the given name. */
  function FirstRoleNamed(rows: seq<RoleEntity>, name: string): Option<RoleEntity> {
    if rows == [] then None
    else if rows[0].name == name then Some(rows[0])
    else FirstRoleNamed(rows[1..], name)
  }

  /** The names of the rows, in store order. */
  function RoleNames(rows: seq<RoleEntity>): seq<string> {
    seq(|rows|, i requires 0 <= i < |rows| => rows[i].name)
  }

  class RoleRepository {
    var roles: seq<RoleEntity>

    constructor (rows: seq<RoleEntity>)
      ensures roles == rows
    {
      roles := rows;
    }

    /** findByName: the first stored role with that name, if there is one. */
    function FindByName(name: string): (role: Option<RoleEntity>)
      reads this
      ensures role.Some? <==> name in RoleNames(roles)
      ensures role.Some? ==> role.value in roles && role.value.name == name
    {
      FirstRoleNamedFound(roles, name);
      FirstRoleNamed(roles, name)
    }

    method Save(role: RoleEntity)
      modifies this
      ensures roles == old(roles) + [role]
    {
      roles := roles + [role];
    }
  }

  lemma {:induction false} FirstRoleNamedFound(rows: seq<RoleEntity>, name: string)
    ensures FirstRoleNamed(rows, name).Some? <==> name in RoleNames(rows)
    ensures FirstRoleNamed(rows, name).Some? ==>
              FirstRoleNamed(rows, name).value in rows && FirstRoleNamed(rows, name).value.name == name
  {
    if rows == [] {
    } else if rows[0].name == name {
      assert RoleNames(rows)[0] == name;
    } else {
      assert RoleNames(rows) == [rows[0].name] + RoleNames(rows[1..]);
      FirstRoleNamedFound(rows[1..], name);
    }
  }

  function FirstGroupNamed(rows: seq<GroupEntity>, name: string): Option<GroupEntity> {
    if rows == [] then None
    else if rows[0].name == name then Some(rows[0])
    else FirstGroupNamed(rows[1..], name)
  }

  function GroupNames(rows: seq<GroupEntity>): seq<string> {
    seq(|rows|, i requires 0 <= i < |rows| => rows[i].name)
  }

  class GroupRepository {
    var groups: seq<GroupEntity>

    constructor (rows: seq<GroupEntity>)
      ensures groups == rows
    {
      groups := rows;
    }

    /** findByName: the first stored group with that name, if there is one. */
    function FindByName(name: string): (group: Option<GroupEntity>)
      reads this
      ensures group.Some? <==> name in GroupNames(groups)
      ensures group.Some? ==> group.value in groups && group.value.name == name
    {
      FirstGroupNamedFound(groups, name);
      FirstGroupNamed(groups, name)
    }

    method Save(group: GroupEntity)
      modifies this
      ensures groups == old(groups) + [group]
    {
      groups := groups + [group];
    }
  }

  lemma {:induction false} FirstGroupNamedFound(rows: seq<GroupEntity>, name: string)
    ensures FirstGroupNamed(rows, name).Some? <==> name in GroupNames(rows)
    ensures FirstGroupNamed(rows, name).Some? ==>
              FirstGroupNamed(rows, name).value in rows && FirstGroupNamed(rows, name).value.name == name
  {
    if rows == [] {
    } else if rows[0].name == name {
      assert GroupNames(rows)[0] == name;
    } else {
      assert GroupNames(rows) == [rows[0].name] + GroupNames(rows[1..]);
      FirstGroupNamedFound(rows[1..], name);
    }
  }
}
