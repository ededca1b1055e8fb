/**
  The entities the initializer seeds (package com.base.spring.domain), as far as its
  code uses them: tree nodes, users, roles and groups.
*/
module Domain {
  import opened Wrappers

  /**
    TreeType: the kinds of tree the application keeps, each with its own root node. The
    constants and their order are inferred from their uses in the service.
  */
  datatype TreeType = Menu | DepartMent | PageResource | Standard

  /** The enum constant's name, as string concatenation prints it. */
  function TreeTypeName(t: TreeType): string {
    match t
    case Menu => "Menu"
    case DepartMent => "DepartMent"
    case PageResource => "PageResource"
    case Standard => "Standard"
  }

  /** The enum constant's ordinal(), its position in declaration order. */
  function TreeTypeOrdinal(t: TreeType): nat {
    match t
    case Menu => 0
    case DepartMent => 1
    case PageResource => 2
    case Standard => 3
  }

  /** TreeType.values(): every constant exactly once, at its ordinal. */
  function TreeTypeValues(): (r: seq<TreeType>)
    ensures forall t: TreeType :: TreeTypeOrdinal(t) < |r| && r[TreeTypeOrdinal(t)] == t
    ensures forall i, j :: 0 <= i < j < |r| ==> r[i] != r[j]
  {
    [Menu, DepartMent, PageResource, Standard]
  }

  /**
    TreeEntity, as a value: type, name, sort position, whether it is a parent node, and
    its parent node (None for Java's null). Nothing the initializer does changes a node
    after constructing it.
  */
  datatype TreeEntity = TreeEntity(kind: TreeType, name: string, sort: int, isParent: bool, parent: Option<TreeEntity>)
  {
    /** A root is a node without a parent. */
    predicate IsRoot() {
      parent.None?
    }
  }

  /** A stored password: unset, or what BCrypt encoding makes of a plain text. */
  datatype Password = NoPassword | BCryptOf(plain: string)

  /** RoleEntity and GroupEntity rows: a name and two flags. */
  datatype RoleEntity = RoleEntity(name: string, valid: bool, enabled: bool)
  datatype GroupEntity = GroupEntity(name: string, valid: bool, enabled: bool)

  /** The field values of a UserEntity, as a row holds them once it is saved. */
  datatype UserRecord = UserRecord(loginName: string, userName: string, password: Password, email: string,
                                   valid: bool, enabled: bool, roles: set<RoleEntity>, groups: set<GroupEntity>)

  /** UserEntity: built field by field with setters before it is saved. */
  class UserEntity {
    var loginName: string
    var userName: string
    var password: Password
    var email: string
    var valid: bool
    var enabled: bool
    var roles: set<RoleEntity>
    var groups: set<GroupEntity>

    constructor ()
      ensures loginName == "" && userName == "" && password == NoPassword && email == ""
      ensures !valid && !enabled && roles == {} && groups == {}
    {
      loginName, userName, password, email := "", "", NoPassword, "";
      valid, enabled := false, false;
      roles, groups := {}, {};
    }

    /** The row this entity is saved as: its current field values. */
    function Record(): (r: UserRecord)
      reads this
      ensures r.loginName == loginName && r.password == password
      ensures r.roles == roles && r.groups == groups
    {
      UserRecord(loginName, userName, password, email, valid, enabled, roles, groups)
    }

    method SetLoginName(loginName: string)
      modifies this`loginName
      ensures this.loginName == loginName
    {
      this.loginName := loginName;
    }

    method SetUserName(userName: string)
      modifies this`userName
      ensures this.userName == userName
    {
      this.userName := userName;
    }

    method SetPassword(password: Password)
      modifies this`password
      ensures this.password == password
    {
      this.password := password;
    }

    method SetEmail(email: string)
      modifies this`email
      ensures this.email == email
    {
      this.email := email;
    }

    method SetValid(valid: bool)
      modifies this`valid
      ensures this.valid == valid
    {
      this.valid := valid;
    }

    method SetEnabled(enabled: bool)
      modifies this`enabled
      ensures this.enabled == enabled
    {
      this.enabled := enabled;
    }

    method AddRole(role: RoleEntity)
      modifies this`roles
      ensures roles == old(roles) + {role}
    {
      roles := roles + {role};
    }

    method AddGroup(group: GroupEntity)
      modifies this`groups
      ensures groups == old(groups) + {group}
    {
      groups := groups + {group};
    }
  }
}
