/**
  InitializeService (package com.base.spring.initialize): the start-up seeding of the
  store. initBaseData makes sure every TreeType has a root node, then runs three guarded
  tree seeders, each of which inserts a fixed batch of nodes under the root of its type
  unless a node with its sentinel name already exists, and finally a guarded seeder for
  the administrator account, which creates the administrator role and group on demand.
*/
module Initialize {
  import opened Wrappers
  import opened Domain
  import opened Repository

  // Sentinel node names: a seeder does nothing when a node with its name is stored.
  const MenuSentinel: string := "菜单管理"
  const PageResourceSentinel: string := "按钮/资源"
  const StandardSentinel: string := "国家标准"

  // The administrator account and the role and group it gets.
  const AdminLogin: string := "admin"
  const AdminUserName: string := "系统管理员"
  const AdminPlainPassword: string := "sysadmin"
  const AdminEmail: string := "admin@mail.com"
  const AdminRoleName: string := "系统管理员角色"
  const UserRoleName: string := "用户角色"
  const AdminGroupName: string := "系统管理员组"
  const UserGroupName: string := "用户组"

  /** The administrator row initUser saves, given the role and group it found. */
  function AdminRecord(role: RoleEntity, group: GroupEntity): UserRecord {
    UserRecord(AdminLogin, AdminUserName, BCryptOf(AdminPlainPassword), AdminEmail, true, true, {role}, {group})
  }

  // ---------------------------------------------------------------------------
  // The root loop of initBaseData
  // ---------------------------------------------------------------------------

  /** The name of the root node created for a type: "root_" + type. */
  function RootName(t: TreeType): string {
    "root_" + TreeTypeName(t)
  }

  /** The root node the loop creates for a type. */
  function RootNode(t: TreeType): TreeEntity {
    TreeEntity(t, RootName(t), 0, true, None)
  }

  /** A root as the root loop creates it: named after its type, sort 0, a parent, no parent of its own. */
  predicate IsSeededRoot(n: TreeEntity) {
    n.IsRoot() && n.name == RootName(n.kind) && n.sort == 0 && n.isParent
  }

  /** n is a stored root node of type t. */
  predicate IsRootOf(n: TreeEntity, trees: multiset<TreeEntity>, t: TreeType) {
    n in trees && n.IsRoot() && n.kind == t
  }

  /** The roots the loop saves while it walks `types`: one for each type not in `present`. */
  function MissingRoots(types: seq<TreeType>, present: set<TreeType>): multiset<TreeEntity> {
    if types == [] then multiset{}
    else
      var t := types[|types| - 1];
      MissingRoots(types[..|types| - 1], present) + if t in present then multiset{} else multiset{RootNode(t)}
  }

  /** One more iteration of the loop: the roots saved for a prefix one type longer. */
  lemma MissingRootsStep(types: seq<TreeType>, i: nat, present: set<TreeType>)
    requires i < |types|
    ensures MissingRoots(types[..i + 1], present) ==
              MissingRoots(types[..i], present) + if types[i] in present then multiset{} else multiset{RootNode(types[i])}
  {
    assert types[..i + 1][..i] == types[..i];
  }

  /** The loop saves only seeded roots, and only for types of `types` that are missing. */
  lemma {:induction false} MissingRootsSeeded(types: seq<TreeType>, present: set<TreeType>)
    ensures forall n :: n in MissingRoots(types, present) ==>
              IsSeededRoot(n) && n.kind in types && n.kind !in present
  {
    if types != [] {
      var init, t := types[..|types| - 1], types[|types| - 1];
      assert types == init + [t];
      MissingRootsSeeded(init, present);
    }
  }

  /** The loop saves a root for every type of `types` that is missing. */
  lemma {:induction false} MissingRootsCover(types: seq<TreeType>, present: set<TreeType>)
    ensures forall t :: t in types && t !in present ==> RootNode(t) in MissingRoots(types, present)
  {
    if types != [] {
      var init, t := types[..|types| - 1], types[|types| - 1];
      assert types == init + [t];
      MissingRootsCover(init, present);
    }
  }

  /** When `types` has no repeats the loop saves no more than one root per type. */
  lemma {:induction false} MissingRootsOnce(types: seq<TreeType>, present: set<TreeType>)
    requires forall i, j :: 0 <= i < j < |types| ==> types[i] != types[j]
    ensures forall n :: MissingRoots(types, present)[n] <= 1
  {
    if types != [] {
      var init, t := types[..|types| - 1], types[|types| - 1];
      assert types == init + [t];
      forall i, j | 0 <= i < j < |init| ensures init[i] != init[j] {
        assert init[i] == types[i] && init[j] == types[j];
      }
      MissingRootsOnce(init, present);
      if t !in present {
        MissingRootsSeeded(init, present);
        forall i | 0 <= i < |init| ensures init[i] != t {
          assert init[i] == types[i];
        }
        assert RootNode(t) !in MissingRoots(init, present);
      }
    }
  }

  /** The tree table after the root loop of initBaseData. */
  function SeedRoots(trees: multiset<TreeEntity>): multiset<TreeEntity> {
    trees + MissingRoots(TreeTypeValues(), RootTypes(trees))
  }

  /**
    The root loop leaves every type with a root; it adds nothing but seeded roots, each
    for a type findTreeTypes did not report, at most one per type; nothing is removed.
  */
  lemma SeedRootsSpec(trees: multiset<TreeEntity>)
    ensures forall t: TreeType :: t in RootTypes(SeedRoots(trees))
    ensures trees <= SeedRoots(trees)
    ensures forall n :: n in SeedRoots(trees) - trees ==> IsSeededRoot(n) && n.kind !in RootTypes(trees)
    ensures forall n :: (SeedRoots(trees) - trees)[n] <= 1
  {
    var added := MissingRoots(TreeTypeValues(), RootTypes(trees));
    MissingRootsSeeded(TreeTypeValues(), RootTypes(trees));
    MissingRootsCover(TreeTypeValues(), RootTypes(trees));
    MissingRootsOnce(TreeTypeValues(), RootTypes(trees));
    assert SeedRoots(trees) - trees == added;
    forall t: TreeType ensures t in RootTypes(SeedRoots(trees)) {
      assert TreeTypeValues()[TreeTypeOrdinal(t)] == t;
      if t !in RootTypes(trees) {
        assert RootNode(t) in SeedRoots(trees);
      }
    }
  }

  /** On a store where every type has a root the loop saves nothing. */
  lemma SeedRootsIdle(trees: multiset<TreeEntity>)
    requires forall t: TreeType :: t in RootTypes(trees)
    ensures SeedRoots(trees) == trees
  {
    MissingRootsSeeded(TreeTypeValues(), RootTypes(trees));
  }

  /** A second run of the root loop saves nothing. */
  lemma SeedRootsIdempotent(trees: multiset<TreeEntity>)
    ensures SeedRoots(SeedRoots(trees)) == SeedRoots(trees)
  {
    SeedRootsSpec(trees);
    SeedRootsIdle(SeedRoots(trees));
  }

  // ---------------------------------------------------------------------------
  // The fixed batches of createMenuTree, createPageResourceTree, createStandardTree
  // ---------------------------------------------------------------------------

  /**
    The node at position i of a batch hangs under `root`: its parent is the root itself or
    another node of the batch.
  */
  predicate HangsUnder(batch: seq<TreeEntity>, i: int, root: TreeEntity)
    requires 0 <= i < |batch|
  {
    batch[i].parent.Some? && (batch[i].parent.value == root || batch[i].parent.value in batch)
  }

  /** `root` is a proper ancestor of `n`: following parent links from `n` reaches it. */
  predicate Below(n: TreeEntity, root: TreeEntity)
    decreases n
  {
    n.parent.Some? && (n.parent.value == root || Below(n.parent.value, root))
  }

  /**
    A node is larger than its parent, so parent links cannot form a cycle: when every node of
    a batch hangs under `root`, every node of the batch lies below `root`.
  */
  lemma {:induction false} BatchBelowRoot(batch: seq<TreeEntity>, root: TreeEntity, n: TreeEntity)
    requires forall i :: 0 <= i < |batch| ==> HangsUnder(batch, i, root)
    requires n in batch
    ensures Below(n, root)
    decreases n
  {
    var i :| 0 <= i < |batch| && batch[i] == n;
    assert HangsUnder(batch, i, root);
    if n.parent.value != root {
      BatchBelowRoot(batch, root, n.parent.value);
    }
  }

  /** Whether one of the nodes is named `name`. */
  predicate HasName(batch: seq<TreeEntity>, name: string) {
    exists n :: n in batch && n.name == name
  }

  /**
    One node of a fixed batch, as a createXTree method constructs it: its name, its sort
    position, whether it is a parent node, and the position in the batch of the node it
    hangs under (-1: the root of the tree's type).
  */
  datatype NodeSpec = NodeSpec(name: string, sort: int, isParent: bool, parent: int)

  /**
    The node built from specs[i], of type `kind`: it hangs under the node built from the
    entry its parent position names, or under `root` when that position is not an earlier one.
  */
  function BatchNode(kind: TreeType, root: TreeEntity, specs: seq<NodeSpec>, i: nat): TreeEntity
    requires i < |specs|
    decreases i
  {
    var spec := specs[i];
    var parent := if 0 <= spec.parent < i then BatchNode(kind, root, specs, spec.parent) else root;
    TreeEntity(kind, spec.name, spec.sort, spec.isParent, Some(parent))
  }

  /** The batch built from a table: one node per entry, in table order. */
  function Batch(kind: TreeType, root: TreeEntity, specs: seq<NodeSpec>): seq<TreeEntity> {
    seq(|specs|, i requires 0 <= i < |specs| => BatchNode(kind, root, specs, i))
  }

  /**
    A built batch has one node per entry, each of type `kind` and named as its entry, and
    every node hangs under `root` or under another node of the batch.
  */
  lemma BatchHangsUnder(kind: TreeType, root: TreeEntity, specs: seq<NodeSpec>)
    ensures |Batch(kind, root, specs)| == |specs|
    ensures forall i :: 0 <= i < |specs| ==>
              Batch(kind, root, specs)[i].kind == kind && Batch(kind, root, specs)[i].name == specs[i].name &&
              HangsUnder(Batch(kind, root, specs), i, root)
  {
    var batch := Batch(kind, root, specs);
    forall i | 0 <= i < |specs| ensures HangsUnder(batch, i, root) {
      var p := specs[i].parent;
      if 0 <= p < i {
        assert batch[i].parent.value == batch[p];
      }
    }
  }

  /** The nodes createMenuTree builds, in the order it adds them to its set. */
  function MenuSpec(i: nat): NodeSpec
    requires i < 26
  {
    match i
    case 0 => NodeSpec("系统管理", 0, true, -1)  // menu1
    case 1 => NodeSpec("菜单管理", 0, true, 0)  // menu11
    case 2 => NodeSpec("用户管理", 1, true, 0)  // menu12
    case 3 => NodeSpec("角色管理", 2, true, 0)  // menu13
    case 4 => NodeSpec("系统设置", 3, true, 0)  // menu14
    case 5 => NodeSpec("菜单树", 0, false, 1)  // menu111
    case 6 => NodeSpec("部门树", 1, false, 1)  // menu112
    case 7 => NodeSpec("标准结构树", 2, false, 1)  // menu113
    case 8 => NodeSpec("用户", 0, false, 2)  // menu131
    case 9 => NodeSpec("用户组", 1, false, 2)  // menu132
    case 10 => NodeSpec("菜单角色", 0, false, 3)  // menu141
    case 11 => NodeSpec("标准资源角色", 1, false, 3)  // menu142
    case 12 => NodeSpec("参数配置", 0, false, 4)  // menu151
    case 13 => NodeSpec("定时任务", 1, false, 4)  // menu152
    case 14 => NodeSpec("系统日志", 2, false, 4)  // menu153
    case 15 => NodeSpec("业务系统管理", 0, true, -1)  // menu2
    case 16 => NodeSpec("站点维护", 0, false, 15)  // menu21
    case 17 => NodeSpec("高级检索", 1, false, 15)  // menu22
    case 18 => NodeSpec("用户管理", 2, false, 15)  // menu23
    case 19 => NodeSpec("缴费管理", 3, false, 15)  // menu24
    case 20 => NodeSpec("模版设置", 4, false, 15)  // menu25
    case 21 => NodeSpec("消息管理", 5, false, 15)  // menu26
    case 22 => NodeSpec("个人设置", 6, false, 15)  // menu27
    case 23 => NodeSpec("其他菜单", 7, true, 15)  // menu28
    case 24 => NodeSpec("菜单1", 0, false, 23)  // menu281
    case 25 => NodeSpec("菜单2", 1, false, 23)  // menu282
  }

  /** The nodes createPageResourceTree builds, in the order it adds them to its set. */
  function PageResourceSpec(i: nat): NodeSpec
    requires i < 16
  {
    match i
    case 0 => NodeSpec("按钮/资源", 0, true, -1)  // menu
    case 1 => NodeSpec("菜单树", 0, true, 0)  // menu1
    case 2 => NodeSpec("文件资源", 1, true, 0)  // menu2
    case 3 => NodeSpec("其他资源", 2, true, 0)  // menu3
    case 4 => NodeSpec("PDF 文件", 3, true, 0)  // menu4
    case 5 => NodeSpec("树结构编辑", 0, false, 1)  // menu11
    case 6 => NodeSpec("节点 URL", 0, false, 1)  // menu12
    case 7 => NodeSpec("节点关联标准", 0, false, 1)  // menu13
    case 8 => NodeSpec("查看文件", 0, false, 2)  // menu21
    case 9 => NodeSpec("下载附件", 0, false, 2)  // menu22
    case 10 => NodeSpec("查看列表", 0, false, 2)  // menu23
    case 11 => NodeSpec("显示图片", 0, false, 3)  // menu31
    case 12 => NodeSpec("资源列表", 0, false, 3)  // menu32
    case 13 => NodeSpec("查看", 0, false, 4)  // menu41
    case 14 => NodeSpec("打印", 1, false, 4)  // menu42
    case 15 => NodeSpec("下载", 2, false, 4)  // menu43
  }

  /** The nodes createStandardTree builds, in the order it adds them to its set. */
  function StandardSpec(i: nat): NodeSpec
    requires i < 18
  {
    match i
    case 0 => NodeSpec("国内", 0, true, -1)  // standard1
    case 1 => NodeSpec("国家标准", 0, true, 0)  // standard11
    case 2 => NodeSpec("行业标准", 1, true, 0)  // standard12
    case 3 => NodeSpec("地方标准", 2, true, 0)  // standard13
    case 4 => NodeSpec("国家标准", 0, false, 1)  // standard111
    case 5 => NodeSpec("军用标准", 1, false, 1)  // standard112
    case 6 => NodeSpec("计量规程", 2, false, 1)  // standard113
    case 7 => NodeSpec("计量规范", 3, false, 1)  // standard114
    case 8 => NodeSpec("安全生产", 0, false, 2)  // standard121
    case 9 => NodeSpec("电子信息", 1, false, 2)  // standard122
    case 10 => NodeSpec("医药健康", 2, false, 2)  // standard123
    case 11 => NodeSpec("北京DB11", 0, false, 3)  // standard131
    case 12 => NodeSpec("天津DB12", 1, false, 3)  // standard132
    case 13 => NodeSpec("河北DB13", 2, false, 3)  // standard133
    case 14 => NodeSpec("国外", 0, true, -1)  // standard2
    case 15 => NodeSpec("iso标准", 0, false, 14)  // standard21
    case 16 => NodeSpec("iec标准", 1, false, 14)  // standard22
    case 17 => NodeSpec("itu标准", 2, false, 14)  // standard23
  }

  function MenuSpecs(): seq<NodeSpec> {
    seq(26, i requires 0 <= i < 26 => MenuSpec(i))
  }

  function PageResourceSpecs(): seq<NodeSpec> {
    seq(16, i requires 0 <= i < 16 => PageResourceSpec(i))
  }

  function StandardSpecs(): seq<NodeSpec> {
    seq(18, i requires 0 <= i < 18 => StandardSpec(i))
  }

  /** The nodes createMenuTree adds under the Menu root `menu`. */
  function MenuBatch(menu: TreeEntity): seq<TreeEntity> {
    Batch(Menu, menu, MenuSpecs())
  }

  /** The nodes createPageResourceTree adds under the PageResource root `pageResource`. */
  function PageResourceBatch(pageResource: TreeEntity): seq<TreeEntity> {
    Batch(Menu, pageResource, PageResourceSpecs())
  }

  /** The nodes createStandardTree adds under the Standard root `standard`. */
  function StandardBatch(standard: TreeEntity): seq<TreeEntity> {
    Batch(Standard, standard, StandardSpecs())
  }

  /**
    createMenuTree saves 26 nodes, all of type Menu, each under the root or another node
    of the batch, the sentinel among them.
  */
  lemma MenuBatchShape(menu: TreeEntity)
    ensures |MenuBatch(menu)| == 26
    ensures forall i :: 0 <= i < 26 ==> MenuBatch(menu)[i].kind == Menu && HangsUnder(MenuBatch(menu), i, menu)
    ensures HasName(MenuBatch(menu), MenuSentinel)
  {
    BatchHangsUnder(Menu, menu, MenuSpecs());
    assert MenuBatch(menu)[1].name == MenuSentinel;
  }

  /**
    createPageResourceTree saves 16 nodes, every one of type Menu, not PageResource, each
    under the root or another node of the batch, the sentinel among them.
  */
  lemma PageResourceBatchShape(pageResource: TreeEntity)
    ensures |PageResourceBatch(pageResource)| == 16
    ensures forall i :: 0 <= i < 16 ==>
              PageResourceBatch(pageResource)[i].kind == Menu && HangsUnder(PageResourceBatch(pageResource), i, pageResource)
    ensures HasName(PageResourceBatch(pageResource), PageResourceSentinel)
  {
    BatchHangsUnder(Menu, pageResource, PageResourceSpecs());
    assert PageResourceBatch(pageResource)[0].name == PageResourceSentinel;
  }

  /**
    createStandardTree saves 18 nodes, all of type Standard, each under the root or another
    node of the batch, the sentinel among them.
  */
  lemma StandardBatchShape(standard: TreeEntity)
    ensures |StandardBatch(standard)| == 18
    ensures forall i :: 0 <= i < 18 ==>
              StandardBatch(standard)[i].kind == Standard && HangsUnder(StandardBatch(standard), i, standard)
    ensures HasName(StandardBatch(standard), StandardSentinel)
  {
    BatchHangsUnder(Standard, standard, StandardSpecs());
    assert StandardBatch(standard)[1].name == StandardSentinel;
  }

  /** No two entries of the table agree on name, sort position and parent flag. */
  predicate Distinguishable(specs: seq<NodeSpec>) {
    forall i, j :: 0 <= i < j < |specs| ==>
      specs[i].name != specs[j].name || specs[i].sort != specs[j].sort || specs[i].isParent != specs[j].isParent
  }

  /** A batch built from a table of distinguishable entries holds no node twice. */
  lemma BatchDistinct(kind: TreeType, root: TreeEntity, specs: seq<NodeSpec>)
    requires Distinguishable(specs)
    ensures forall i, j :: 0 <= i < j < |specs| ==> Batch(kind, root, specs)[i] != Batch(kind, root, specs)[j]
  {
    var batch := Batch(kind, root, specs);
    forall i, j | 0 <= i < j < |specs| ensures batch[i] != batch[j] {
      assert batch[i].name == specs[i].name && batch[j].name == specs[j].name;
    }
  }

  lemma MenuSpecsDistinguishable()
    ensures Distinguishable(MenuSpecs())
  {
  }

  lemma PageResourceSpecsDistinguishable()
    ensures Distinguishable(PageResourceSpecs())
  {
  }

  lemma StandardSpecsDistinguishable()
    ensures Distinguishable(StandardSpecs())
  {
  }

  /**
    createMenuTree, createPageResourceTree and createStandardTree never construct the same
    node twice, so the HashSet each of them collects its nodes in keeps all of them.
  */
  lemma BatchesHaveNoDuplicates(menu: TreeEntity, pageResource: TreeEntity, standard: TreeEntity)
    ensures forall i, j :: 0 <= i < j < |MenuBatch(menu)| ==> MenuBatch(menu)[i] != MenuBatch(menu)[j]
    ensures forall i, j :: 0 <= i < j < |PageResourceBatch(pageResource)| ==>
              PageResourceBatch(pageResource)[i] != PageResourceBatch(pageResource)[j]
    ensures forall i, j :: 0 <= i < j < |StandardBatch(standard)| ==>
              StandardBatch(standard)[i] != StandardBatch(standard)[j]
  {
    MenuSpecsDistinguishable();
    BatchDistinct(Menu, menu, MenuSpecs());
    PageResourceSpecsDistinguishable();
    BatchDistinct(Menu, pageResource, PageResourceSpecs());
    StandardSpecsDistinguishable();
    BatchDistinct(Standard, standard, StandardSpecs());
  }

  /** Adding nodes that all hang under something leaves the set of rooted types as it was. */
  lemma RootTypesAddChildren(trees: multiset<TreeEntity>, batch: seq<TreeEntity>)
    requires forall i :: 0 <= i < |batch| ==> batch[i].parent.Some?
    ensures RootTypes(trees + multiset(batch)) == RootTypes(trees)
  {
    forall t | t in RootTypes(trees + multiset(batch)) ensures t in RootTypes(trees) {
      var n :| n in trees + multiset(batch) && n.IsRoot() && n.kind == t;
      assert n !in batch;
    }
  }

  /** A stored name stays stored when a batch is added, and every name of the batch is stored. */
  lemma NamedAfterAdding(trees: multiset<TreeEntity>, batch: seq<TreeEntity>, name: string)
    requires Named(trees, name) || HasName(batch, name)
    ensures Named(trees + multiset(batch), name)
  {
    if !Named(trees, name) {
      var n :| n in batch && n.name == name;
      assert n in trees + multiset(batch);
    }
  }

  /**
    Saving a batch whose nodes all hang under a stored root keeps the rooted types as they
    were and leaves `sentinel` stored when the batch holds it.
  */
  lemma SavedBatch(before: multiset<TreeEntity>, root: TreeEntity, rootKind: TreeType,
                   batch: seq<TreeEntity>, sentinel: string)
    requires IsRootOf(root, before, rootKind)
    requires forall i :: 0 <= i < |batch| ==> HangsUnder(batch, i, root)
    requires HasName(batch, sentinel)
    ensures RootTypes(before + multiset(batch)) == RootTypes(before)
    ensures Named(before + multiset(batch), sentinel)
  {
    forall i | 0 <= i < |batch| ensures batch[i].parent.Some? {
      assert HangsUnder(batch, i, root);
    }
    RootTypesAddChildren(before, batch);
    NamedAfterAdding(before, batch, sentinel);
  }

  /**
    initMenuTree / initPageResourceTree / initStandardTree as a function of the tree
    table: unless a node named `sentinel` is stored, save `batch`.
  */
  function GuardedSeed(trees: multiset<TreeEntity>, sentinel: string, batch: seq<TreeEntity>): multiset<TreeEntity> {
    if Named(trees, sentinel) then trees else trees + multiset(batch)
  }

  /**
    A guarded seeder whose batch holds its own sentinel leaves that sentinel stored, and
    a second run saves nothing, whichever batch it would have used.
  */
  lemma {:induction false} GuardedSeedIdempotent(trees: multiset<TreeEntity>, sentinel: string,
                                                 batch: seq<TreeEntity>, batch': seq<TreeEntity>)
    requires HasName(batch, sentinel)
    ensures Named(GuardedSeed(trees, sentinel, batch), sentinel)
    ensures GuardedSeed(GuardedSeed(trees, sentinel, batch), sentinel, batch') == GuardedSeed(trees, sentinel, batch)
  {
    NamedAfterAdding(trees, batch, sentinel);
  }

  /** initMenuTree run twice, with any roots, does what it does once. */
  lemma MenuSeedIdempotent(trees: multiset<TreeEntity>, menu: TreeEntity, menu': TreeEntity)
    ensures Named(GuardedSeed(trees, MenuSentinel, MenuBatch(menu)), MenuSentinel)
    ensures GuardedSeed(GuardedSeed(trees, MenuSentinel, MenuBatch(menu)), MenuSentinel, MenuBatch(menu')) ==
            GuardedSeed(trees, MenuSentinel, MenuBatch(menu))
  {
    MenuBatchShape(menu);
    GuardedSeedIdempotent(trees, MenuSentinel, MenuBatch(menu), MenuBatch(menu'));
  }

  /** initPageResourceTree run twice, with any roots, does what it does once. */
  lemma PageResourceSeedIdempotent(trees: multiset<TreeEntity>, pageResource: TreeEntity, pageResource': TreeEntity)
    ensures Named(GuardedSeed(trees, PageResourceSentinel, PageResourceBatch(pageResource)), PageResourceSentinel)
    ensures GuardedSeed(GuardedSeed(trees, PageResourceSentinel, PageResourceBatch(pageResource)),
                        PageResourceSentinel, PageResourceBatch(pageResource')) ==
            GuardedSeed(trees, PageResourceSentinel, PageResourceBatch(pageResource))
  {
    PageResourceBatchShape(pageResource);
    GuardedSeedIdempotent(trees, PageResourceSentinel, PageResourceBatch(pageResource), PageResourceBatch(pageResource'));
  }

  /** initStandardTree run twice, with any roots, does what it does once. */
  lemma StandardSeedIdempotent(trees: multiset<TreeEntity>, standard: TreeEntity, standard': TreeEntity)
    ensures Named(GuardedSeed(trees, StandardSentinel, StandardBatch(standard)), StandardSentinel)
    ensures GuardedSeed(GuardedSeed(trees, StandardSentinel, StandardBatch(standard)), StandardSentinel, StandardBatch(standard')) ==
            GuardedSeed(trees, StandardSentinel, StandardBatch(standard))
  {
    StandardBatchShape(standard);
    GuardedSeedIdempotent(trees, StandardSentinel, StandardBatch(standard), StandardBatch(standard'));
  }

  // ---------------------------------------------------------------------------
  // initBaseData on the tree table: the root loop, then the three guarded seeders
  // ---------------------------------------------------------------------------

  /** Every tree type has a root and every sentinel name is stored. */
  ghost predicate TreesSeeded(trees: multiset<TreeEntity>) {
    && (forall t: TreeType :: t in RootTypes(trees))
    && Named(trees, MenuSentinel) && Named(trees, PageResourceSentinel) && Named(trees, StandardSentinel)
  }

  /**
    What initMenuTree, initPageResourceTree or initStandardTree does to the tree table, with
    `root` the root findRoot returned: when a node named `sentinel` is stored, nothing;
    otherwise `root` is a stored root of type `kind` and `batch` is saved.
  */
  ghost predicate TreeSeedStep(before: multiset<TreeEntity>, after: multiset<TreeEntity>, sentinel: string,
                               kind: TreeType, root: TreeEntity, batch: seq<TreeEntity>)
  {
    if Named(before, sentinel) then after == before
    else IsRootOf(root, before, kind) && after == before + multiset(batch)
  }

  /** `batch` hangs under `root` and holds `sentinel`, as every batch of a seeder does. */
  ghost predicate BatchShape(root: TreeEntity, batch: seq<TreeEntity>, sentinel: string) {
    (forall i :: 0 <= i < |batch| ==> HangsUnder(batch, i, root)) && HasName(batch, sentinel)
  }

  /** No entry of the table is named `name`. */
  predicate Unnamed(specs: seq<NodeSpec>, name: string) {
    forall i :: 0 <= i < |specs| ==> specs[i].name != name
  }

  /** A batch built from a table with no entry named `name` holds no node of that name. */
  lemma NotNamed(kind: TreeType, root: TreeEntity, specs: seq<NodeSpec>, name: string)
    requires Unnamed(specs, name)
    ensures !HasName(Batch(kind, root, specs), name)
  {
    var batch := Batch(kind, root, specs);
    forall n | n in batch ensures n.name != name {
      var i :| 0 <= i < |batch| && batch[i] == n;
    }
  }

  /** Neither later sentinel names a menu node, and the Standard sentinel names no page-resource node. */
  lemma SentinelsApart()
    ensures Unnamed(MenuSpecs(), PageResourceSentinel) && Unnamed(MenuSpecs(), StandardSentinel)
    ensures Unnamed(PageResourceSpecs(), StandardSentinel)
  {
  }

  /**
    No batch holds the sentinel of a seeder that runs after it, so a seeder whose sentinel
    was missing at the start still finds it missing when its turn comes.
  */
  lemma BatchesApart(menu: TreeEntity, pageResource: TreeEntity)
    ensures !HasName(MenuBatch(menu), PageResourceSentinel) && !HasName(MenuBatch(menu), StandardSentinel)
    ensures !HasName(PageResourceBatch(pageResource), StandardSentinel)
  {
    SentinelsApart();
    NotNamed(Menu, menu, MenuSpecs(), PageResourceSentinel);
    NotNamed(Menu, menu, MenuSpecs(), StandardSentinel);
    NotNamed(Menu, pageResource, PageResourceSpecs(), StandardSentinel);
  }

  /** No root name is a sentinel, so the root loop stores none of them. */
  lemma RootNamesApart(t: TreeType)
    ensures RootName(t) != MenuSentinel && RootName(t) != PageResourceSentinel && RootName(t) != StandardSentinel
  {
    assert RootName(t)[0] == 'r';
  }

  /** A seeder step keeps every stored node and leaves its sentinel stored. */
  lemma TreeSeedStepGrows(before: multiset<TreeEntity>, after: multiset<TreeEntity>, sentinel: string,
                          kind: TreeType, root: TreeEntity, batch: seq<TreeEntity>)
    requires TreeSeedStep(before, after, sentinel, kind, root, batch)
    requires HasName(batch, sentinel)
    ensures before <= after
    ensures Named(after, sentinel)
  {
    if !Named(before, sentinel) {
      var n :| n in batch && n.name == sentinel;
      assert n in after;
    }
  }

  /** A seeder step whose batch hangs under its root adds no root and keeps the set of rooted types. */
  lemma TreeSeedStepRoots(before: multiset<TreeEntity>, after: multiset<TreeEntity>, sentinel: string,
                          kind: TreeType, root: TreeEntity, batch: seq<TreeEntity>)
    requires TreeSeedStep(before, after, sentinel, kind, root, batch)
    requires BatchShape(root, batch, sentinel)
    ensures forall n :: n in after - before ==> !n.IsRoot()
    ensures RootTypes(after) == RootTypes(before)
  {
    if !Named(before, sentinel) {
      SavedBatch(before, root, kind, batch, sentinel);
      forall n | n in after - before ensures !n.IsRoot() {
        assert n in batch;
        var i :| 0 <= i < |batch| && batch[i] == n;
        assert HangsUnder(batch, i, root);
      }
    }
  }

  /** A name stored in a table is stored in any table holding it. */
  lemma NamedGrows(small: multiset<TreeEntity>, large: multiset<TreeEntity>, name: string)
    requires small <= large && Named(small, name)
    ensures Named(large, name)
  {
    var n :| n in small && n.name == name;
    assert n in large;
  }

  /** A step whose batch does not hold `name` leaves `name` missing when it was missing. */
  lemma TreeSeedStepKeepsMissing(before: multiset<TreeEntity>, after: multiset<TreeEntity>, sentinel: string,
                                 kind: TreeType, root: TreeEntity, batch: seq<TreeEntity>, name: string)
    requires TreeSeedStep(before, after, sentinel, kind, root, batch)
    requires !HasName(batch, name)
    requires !Named(before, name)
    ensures !Named(after, name)
  {
    if !Named(before, sentinel) {
      forall n | n in after ensures n.name != name {
        if n !in before {
          assert n in batch;
        }
      }
    }
  }

  /** The root loop stores no sentinel that was not stored before it. */
  lemma SeedRootsKeepsMissing(trees: multiset<TreeEntity>, sentinel: string)
    requires sentinel in {MenuSentinel, PageResourceSentinel, StandardSentinel}
    requires !Named(trees, sentinel)
    ensures !Named(SeedRoots(trees), sentinel)
  {
    SeedRootsSpec(trees);
    if Named(SeedRoots(trees), sentinel) {
      var n :| n in SeedRoots(trees) && n.name == sentinel;
      assert n in SeedRoots(trees) - trees;
      RootNamesApart(n.kind);
      assert false;
    }
  }

  /** The three seeder steps from `t1` keep every type rooted and leave every sentinel stored. */
  lemma StepsSeed(t1: multiset<TreeEntity>, t2: multiset<TreeEntity>,
                      t3: multiset<TreeEntity>, t4: multiset<TreeEntity>,
                      menu: TreeEntity, menuBatch: seq<TreeEntity>,
                      pageResource: TreeEntity, pageResourceBatch: seq<TreeEntity>,
                      standard: TreeEntity, standardBatch: seq<TreeEntity>)
    requires BatchShape(menu, menuBatch, MenuSentinel)
    requires BatchShape(pageResource, pageResourceBatch, PageResourceSentinel)
    requires BatchShape(standard, standardBatch, StandardSentinel)
    requires TreeSeedStep(t1, t2, MenuSentinel, Menu, menu, menuBatch)
    requires TreeSeedStep(t2, t3, PageResourceSentinel, PageResource, pageResource, pageResourceBatch)
    requires TreeSeedStep(t3, t4, StandardSentinel, Standard, standard, standardBatch)
    requires forall t: TreeType :: t in RootTypes(t1)
    ensures TreesSeeded(t4)
  {
    TreeSeedStepGrows(t1, t2, MenuSentinel, Menu, menu, menuBatch);
    TreeSeedStepGrows(t2, t3, PageResourceSentinel, PageResource, pageResource, pageResourceBatch);
    TreeSeedStepGrows(t3, t4, StandardSentinel, Standard, standard, standardBatch);
    TreeSeedStepRoots(t1, t2, MenuSentinel, Menu, menu, menuBatch);
    TreeSeedStepRoots(t2, t3, PageResourceSentinel, PageResource, pageResource, pageResourceBatch);
    TreeSeedStepRoots(t3, t4, StandardSentinel, Standard, standard, standardBatch);
    NamedGrows(t2, t4, MenuSentinel);
    NamedGrows(t3, t4, PageResourceSentinel);
  }

  /** The three seeder steps from `t1` remove nothing and add no root. */
  lemma StepsAddNoRoot(t1: multiset<TreeEntity>, t2: multiset<TreeEntity>,
                      t3: multiset<TreeEntity>, t4: multiset<TreeEntity>,
                      menu: TreeEntity, menuBatch: seq<TreeEntity>,
                      pageResource: TreeEntity, pageResourceBatch: seq<TreeEntity>,
                      standard: TreeEntity, standardBatch: seq<TreeEntity>)
    requires BatchShape(menu, menuBatch, MenuSentinel)
    requires BatchShape(pageResource, pageResourceBatch, PageResourceSentinel)
    requires BatchShape(standard, standardBatch, StandardSentinel)
    requires TreeSeedStep(t1, t2, MenuSentinel, Menu, menu, menuBatch)
    requires TreeSeedStep(t2, t3, PageResourceSentinel, PageResource, pageResource, pageResourceBatch)
    requires TreeSeedStep(t3, t4, StandardSentinel, Standard, standard, standardBatch)
    ensures t1 <= t4
    ensures forall n :: n in t4 - t1 ==> !n.IsRoot()
  {
    TreeSeedStepGrows(t1, t2, MenuSentinel, Menu, menu, menuBatch);
    TreeSeedStepGrows(t2, t3, PageResourceSentinel, PageResource, pageResource, pageResourceBatch);
    TreeSeedStepGrows(t3, t4, StandardSentinel, Standard, standard, standardBatch);
    TreeSeedStepRoots(t1, t2, MenuSentinel, Menu, menu, menuBatch);
    TreeSeedStepRoots(t2, t3, PageResourceSentinel, PageResource, pageResource, pageResourceBatch);
    TreeSeedStepRoots(t3, t4, StandardSentinel, Standard, standard, standardBatch);
    forall n | n in t4 - t1 ensures !n.IsRoot() {
      if n !in t2 - t1 && n !in t3 - t2 {
        assert n in t4 - t3;
      }
    }
  }

  /**
    The root loop takes `t0` to SeedRoots(t0); three seeder steps, each with the root its
    findRoot returned and the batch it builds, take that through `t2` and `t3` to `t4`.
    Afterwards every type has a root and every sentinel is stored; a store that had both
    is left as it was; nothing is removed and the only roots added are the loop's.
  */
  lemma SeederStepsSeed(t0: multiset<TreeEntity>, t2: multiset<TreeEntity>,
                                       t3: multiset<TreeEntity>, t4: multiset<TreeEntity>,
                                       menu: TreeEntity, menuBatch: seq<TreeEntity>,
                                       pageResource: TreeEntity, pageResourceBatch: seq<TreeEntity>,
                                       standard: TreeEntity, standardBatch: seq<TreeEntity>)
    requires BatchShape(menu, menuBatch, MenuSentinel)
    requires BatchShape(pageResource, pageResourceBatch, PageResourceSentinel)
    requires BatchShape(standard, standardBatch, StandardSentinel)
    requires TreeSeedStep(SeedRoots(t0), t2, MenuSentinel, Menu, menu, menuBatch)
    requires TreeSeedStep(t2, t3, PageResourceSentinel, PageResource, pageResource, pageResourceBatch)
    requires TreeSeedStep(t3, t4, StandardSentinel, Standard, standard, standardBatch)
    ensures TreesSeeded(t4)
    ensures TreesSeeded(t0) ==> t4 == t0
    ensures SeedRoots(t0) <= t4
    ensures forall n :: n in t4 - SeedRoots(t0) ==> !n.IsRoot()
  {
    var t1 := SeedRoots(t0);
    SeedRootsSpec(t0);
    StepsSeed(t1, t2, t3, t4, menu, menuBatch, pageResource, pageResourceBatch, standard, standardBatch);
    StepsAddNoRoot(t1, t2, t3, t4, menu, menuBatch, pageResource, pageResourceBatch, standard, standardBatch);
    if TreesSeeded(t0) {
      SeedRootsIdle(t0);
    }
  }

  /**
    In the same run, each seeder whose sentinel was missing at the start saved its batch,
    under a root the loop left: no earlier step stores a later step's sentinel.
  */
  lemma SeederStepsSave(t0: multiset<TreeEntity>, t2: multiset<TreeEntity>,
                                       t3: multiset<TreeEntity>, t4: multiset<TreeEntity>,
                                       menu: TreeEntity, menuBatch: seq<TreeEntity>,
                                       pageResource: TreeEntity, pageResourceBatch: seq<TreeEntity>,
                                       standard: TreeEntity, standardBatch: seq<TreeEntity>)
    requires BatchShape(menu, menuBatch, MenuSentinel)
    requires BatchShape(pageResource, pageResourceBatch, PageResourceSentinel)
    requires BatchShape(standard, standardBatch, StandardSentinel)
    requires !HasName(menuBatch, PageResourceSentinel) && !HasName(menuBatch, StandardSentinel)
    requires !HasName(pageResourceBatch, StandardSentinel)
    requires TreeSeedStep(SeedRoots(t0), t2, MenuSentinel, Menu, menu, menuBatch)
    requires TreeSeedStep(t2, t3, PageResourceSentinel, PageResource, pageResource, pageResourceBatch)
    requires TreeSeedStep(t3, t4, StandardSentinel, Standard, standard, standardBatch)
    ensures !Named(t0, MenuSentinel) ==> IsRootOf(menu, SeedRoots(t0), Menu) && multiset(menuBatch) <= t4
    ensures !Named(t0, PageResourceSentinel) ==>
              IsRootOf(pageResource, SeedRoots(t0), PageResource) && multiset(pageResourceBatch) <= t4
    ensures !Named(t0, StandardSentinel) ==>
              IsRootOf(standard, SeedRoots(t0), Standard) && multiset(standardBatch) <= t4
  {
    var t1 := SeedRoots(t0);
    TreeSeedStepGrows(t1, t2, MenuSentinel, Menu, menu, menuBatch);
    TreeSeedStepGrows(t2, t3, PageResourceSentinel, PageResource, pageResource, pageResourceBatch);
    TreeSeedStepGrows(t3, t4, StandardSentinel, Standard, standard, standardBatch);
    if !Named(t0, MenuSentinel) {
      SeedRootsKeepsMissing(t0, MenuSentinel);
    }
    if !Named(t0, PageResourceSentinel) {
      SeedRootsKeepsMissing(t0, PageResourceSentinel);
      TreeSeedStepKeepsMissing(t1, t2, MenuSentinel, Menu, menu, menuBatch, PageResourceSentinel);
      TreeSeedStepRoots(t1, t2, MenuSentinel, Menu, menu, menuBatch);
      assert pageResource in t1;
    }
    if !Named(t0, StandardSentinel) {
      SeedRootsKeepsMissing(t0, StandardSentinel);
      TreeSeedStepKeepsMissing(t1, t2, MenuSentinel, Menu, menu, menuBatch, StandardSentinel);
      TreeSeedStepKeepsMissing(t2, t3, PageResourceSentinel, PageResource, pageResource, pageResourceBatch, StandardSentinel);
      TreeSeedStepRoots(t1, t2, MenuSentinel, Menu, menu, menuBatch);
      TreeSeedStepRoots(t2, t3, PageResourceSentinel, PageResource, pageResource, pageResourceBatch);
      assert standard in t1;
    }
  }

  /** The three batches have the shape SeederStepsSeed and SeederStepsSave ask for. */
  lemma BatchFacts(menu: TreeEntity, pageResource: TreeEntity, standard: TreeEntity)
    ensures BatchShape(menu, MenuBatch(menu), MenuSentinel)
    ensures BatchShape(pageResource, PageResourceBatch(pageResource), PageResourceSentinel)
    ensures BatchShape(standard, StandardBatch(standard), StandardSentinel)
    ensures !HasName(MenuBatch(menu), PageResourceSentinel) && !HasName(MenuBatch(menu), StandardSentinel)
    ensures !HasName(PageResourceBatch(pageResource), StandardSentinel)
  {
    MenuBatchShape(menu);
    PageResourceBatchShape(pageResource);
    StandardBatchShape(standard);
    BatchesApart(menu, pageResource);
  }

  /** SeederStepsSeed and SeederStepsSave for the three batches initBaseData actually saves. */
  lemma InitTrees(t0: multiset<TreeEntity>, t2: multiset<TreeEntity>, t3: multiset<TreeEntity>,
                  t4: multiset<TreeEntity>, menu: TreeEntity, pageResource: TreeEntity, standard: TreeEntity)
    requires TreeSeedStep(SeedRoots(t0), t2, MenuSentinel, Menu, menu, MenuBatch(menu))
    requires TreeSeedStep(t2, t3, PageResourceSentinel, PageResource, pageResource, PageResourceBatch(pageResource))
    requires TreeSeedStep(t3, t4, StandardSentinel, Standard, standard, StandardBatch(standard))
    ensures TreesSeeded(t4)
    ensures TreesSeeded(t0) ==> t4 == t0
    ensures SeedRoots(t0) <= t4
    ensures forall n :: n in t4 - SeedRoots(t0) ==> !n.IsRoot()
    ensures !Named(t0, MenuSentinel) ==> IsRootOf(menu, SeedRoots(t0), Menu) && multiset(MenuBatch(menu)) <= t4
    ensures !Named(t0, PageResourceSentinel) ==>
              IsRootOf(pageResource, SeedRoots(t0), PageResource) && multiset(PageResourceBatch(pageResource)) <= t4
    ensures !Named(t0, StandardSentinel) ==>
              IsRootOf(standard, SeedRoots(t0), Standard) && multiset(StandardBatch(standard)) <= t4
    ensures t4 == SeededTrees(t0, menu, pageResource, standard)
  {
    BatchFacts(menu, pageResource, standard);
    SeederStepsSeed(t0, t2, t3, t4, menu, MenuBatch(menu), pageResource, PageResourceBatch(pageResource),
                    standard, StandardBatch(standard));
    SeederStepsSave(t0, t2, t3, t4, menu, MenuBatch(menu), pageResource, PageResourceBatch(pageResource),
                    standard, StandardBatch(standard));
    TreeSeedStepGuarded(SeedRoots(t0), t2, MenuSentinel, Menu, menu, MenuBatch(menu));
    TreeSeedStepGuarded(t2, t3, PageResourceSentinel, PageResource, pageResource, PageResourceBatch(pageResource));
    TreeSeedStepGuarded(t3, t4, StandardSentinel, Standard, standard, StandardBatch(standard));
    GuardedSeedsAdd(t0, menu, pageResource, standard);
  }

  // ---------------------------------------------------------------------------
  // The tree table initBaseData leaves, exactly
  // ---------------------------------------------------------------------------

  /** A seeder step is the guarded seed of the table it starts from. */
  lemma TreeSeedStepGuarded(before: multiset<TreeEntity>, after: multiset<TreeEntity>, sentinel: string,
                            kind: TreeType, root: TreeEntity, batch: seq<TreeEntity>)
    requires TreeSeedStep(before, after, sentinel, kind, root, batch)
    ensures after == GuardedSeed(before, sentinel, batch)
  {
  }

  /** What a seeder adds: nothing when its sentinel was stored, its batch otherwise. */
  function Added(stored: bool, batch: seq<TreeEntity>): multiset<TreeEntity> {
    if stored then multiset{} else multiset(batch)
  }

  /**
    The tree table initBaseData leaves behind: the table after the root loop, plus the batch
    of each seeder whose sentinel was missing from the table initBaseData started from.
  */
  ghost function SeededTrees(t0: multiset<TreeEntity>, menu: TreeEntity, pageResource: TreeEntity,
                             standard: TreeEntity): multiset<TreeEntity>
  {
    SeedRoots(t0)
      + Added(Named(t0, MenuSentinel), MenuBatch(menu))
      + Added(Named(t0, PageResourceSentinel), PageResourceBatch(pageResource))
      + Added(Named(t0, StandardSentinel), StandardBatch(standard))
  }

  /** A guarded seed whose batch does not hold `name` stores `name` exactly when it was stored. */
  lemma GuardedSeedNamed(trees: multiset<TreeEntity>, sentinel: string, batch: seq<TreeEntity>, name: string)
    requires !HasName(batch, name)
    ensures Named(GuardedSeed(trees, sentinel, batch), name) == Named(trees, name)
  {
    var after := GuardedSeed(trees, sentinel, batch);
    if Named(trees, name) {
      NamedGrows(trees, after, name);
    } else {
      forall n | n in after ensures n.name != name {
        if n !in trees {
          assert n in batch;
        }
      }
    }
  }

  /** The root loop stores a sentinel exactly when it was stored before it. */
  lemma SeedRootsNamed(trees: multiset<TreeEntity>, sentinel: string)
    requires sentinel in {MenuSentinel, PageResourceSentinel, StandardSentinel}
    ensures Named(SeedRoots(trees), sentinel) == Named(trees, sentinel)
  {
    SeedRootsSpec(trees);
    if Named(trees, sentinel) {
      NamedGrows(trees, SeedRoots(trees), sentinel);
    } else {
      SeedRootsKeepsMissing(trees, sentinel);
    }
  }

  /**
    The root loop followed by the three guarded seeds gives SeededTrees: each seeder sees its
    sentinel exactly as the table initBaseData started from held it, because neither the
    loop nor an earlier batch stores a later seeder's sentinel.
  */
  lemma {:induction false} GuardedSeedsAdd(t0: multiset<TreeEntity>, menu: TreeEntity, pageResource: TreeEntity,
                                           standard: TreeEntity)
    ensures GuardedSeed(GuardedSeed(GuardedSeed(SeedRoots(t0), MenuSentinel, MenuBatch(menu)),
                                    PageResourceSentinel, PageResourceBatch(pageResource)),
                        StandardSentinel, StandardBatch(standard))
            == SeededTrees(t0, menu, pageResource, standard)
  {
    var t1 := SeedRoots(t0);
    var t2 := GuardedSeed(t1, MenuSentinel, MenuBatch(menu));
    var t3 := GuardedSeed(t2, PageResourceSentinel, PageResourceBatch(pageResource));
    BatchesApart(menu, pageResource);
    SeedRootsNamed(t0, MenuSentinel);
    SeedRootsNamed(t0, PageResourceSentinel);
    SeedRootsNamed(t0, StandardSentinel);
    GuardedSeedNamed(t1, MenuSentinel, MenuBatch(menu), PageResourceSentinel);
    GuardedSeedNamed(t1, MenuSentinel, MenuBatch(menu), StandardSentinel);
    GuardedSeedNamed(t2, PageResourceSentinel, PageResourceBatch(pageResource), StandardSentinel);
    assert t2 == t1 + Added(Named(t0, MenuSentinel), MenuBatch(menu));
    assert t3 == t2 + Added(Named(t0, PageResourceSentinel), PageResourceBatch(pageResource));
  }

  // ---------------------------------------------------------------------------
  // initRole and initGroup, as functions of the stored rows
  // ---------------------------------------------------------------------------

  lemma {:induction false} RoleNamesAppend(a: seq<RoleEntity>, b: seq<RoleEntity>)
    ensures RoleNames(a + b) == RoleNames(a) + RoleNames(b)
  {
    if a != [] {
      assert (a + b)[1..] == a[1..] + b;
      RoleNamesAppend(a[1..], b);
    }
  }

  lemma {:induction false} GroupNamesAppend(a: seq<GroupEntity>, b: seq<GroupEntity>)
    ensures GroupNames(a + b) == GroupNames(a) + GroupNames(b)
  {
    if a != [] {
      assert (a + b)[1..] == a[1..] + b;
      GroupNamesAppend(a[1..], b);
    }
  }

  /**
    initRole: unless both the administrator role and the user role are stored, save both,
    valid and enabled. Nothing is removed, and each name is saved at most once more.
  */
  function InitRoleRows(roles: seq<RoleEntity>): (r: seq<RoleEntity>)
    ensures roles <= r
    ensures AdminRoleName in RoleNames(r) && UserRoleName in RoleNames(r)
    ensures multiset(RoleNames(r)) ==
              multiset(RoleNames(roles)) +
              if AdminRoleName in RoleNames(roles) && UserRoleName in RoleNames(roles) then multiset{}
              else multiset{AdminRoleName, UserRoleName}
    ensures forall row :: row in r[|roles|..] ==> row.valid && row.enabled
  {
    if AdminRoleName in RoleNames(roles) && UserRoleName in RoleNames(roles) then
      assert roles[|roles|..] == [];
      roles
    else
      var added := [RoleEntity(AdminRoleName, true, true), RoleEntity(UserRoleName, true, true)];
      RoleNamesAppend(roles, added);
      assert RoleNames(added) == [AdminRoleName, UserRoleName];
      assert multiset(RoleNames(roles + added)) == multiset(RoleNames(roles)) + multiset{AdminRoleName, UserRoleName};
      assert (roles + added)[|roles|..] == added;
      assert forall row :: row in added ==> row.valid && row.enabled;
      roles + added
  }

  /** initGroup: the same for the administrator group and the user group. */
  function InitGroupRows(groups: seq<GroupEntity>): (r: seq<GroupEntity>)
    ensures groups <= r
    ensures AdminGroupName in GroupNames(r) && UserGroupName in GroupNames(r)
    ensures multiset(GroupNames(r)) ==
              multiset(GroupNames(groups)) +
              if AdminGroupName in GroupNames(groups) && UserGroupName in GroupNames(groups) then multiset{}
              else multiset{AdminGroupName, UserGroupName}
    ensures forall row :: row in r[|groups|..] ==> row.valid && row.enabled
  {
    if AdminGroupName in GroupNames(groups) && UserGroupName in GroupNames(groups) then
      assert groups[|groups|..] == [];
      groups
    else
      var added := [GroupEntity(AdminGroupName, true, true), GroupEntity(UserGroupName, true, true)];
      GroupNamesAppend(groups, added);
      assert GroupNames(added) == [AdminGroupName, UserGroupName];
      assert multiset(GroupNames(groups + added)) == multiset(GroupNames(groups)) + multiset{AdminGroupName, UserGroupName};
      assert (groups + added)[|groups|..] == added;
      assert forall row :: row in added ==> row.valid && row.enabled;
      groups + added
  }

  /** When exactly one of the two role names is stored, initRole leaves that name stored twice (or more). */
  lemma InitRoleDuplicates(roles: seq<RoleEntity>, present: string)
    requires (present == AdminRoleName && UserRoleName !in RoleNames(roles)) ||
             (present == UserRoleName && AdminRoleName !in RoleNames(roles))
    requires present in RoleNames(roles)
    ensures multiset(RoleNames(InitRoleRows(roles)))[present] == multiset(RoleNames(roles))[present] + 1
    ensures multiset(RoleNames(InitRoleRows(roles)))[present] >= 2
  {
    assert multiset(RoleNames(roles))[present] >= 1;
  }

  /** When exactly one of the two group names is stored, initGroup leaves that name stored twice (or more). */
  lemma InitGroupDuplicates(groups: seq<GroupEntity>, present: string)
    requires (present == AdminGroupName && UserGroupName !in GroupNames(groups)) ||
             (present == UserGroupName && AdminGroupName !in GroupNames(groups))
    requires present in GroupNames(groups)
    ensures multiset(GroupNames(InitGroupRows(groups)))[present] == multiset(GroupNames(groups))[present] + 1
    ensures multiset(GroupNames(InitGroupRows(groups)))[present] >= 2
  {
    assert multiset(GroupNames(groups))[present] >= 1;
  }

  /** A second initRole saves nothing. */
  lemma InitRoleIdempotent(roles: seq<RoleEntity>)
    ensures InitRoleRows(InitRoleRows(roles)) == InitRoleRows(roles)
  {
  }

  /** A second initGroup saves nothing. */
  lemma InitGroupIdempotent(groups: seq<GroupEntity>)
    ensures InitGroupRows(InitGroupRows(groups)) == InitGroupRows(groups)
  {
  }

  // ---------------------------------------------------------------------------
  // The service
  // ---------------------------------------------------------------------------

  class InitializeService {
    const treeRepository: TreeRepository
    const userRepository: UserRepository
    const roleRepository: RoleRepository
    const groupRepository: GroupRepository

    constructor (trees: TreeRepository, users: UserRepository, roles: RoleRepository, groups: GroupRepository)
      ensures treeRepository == trees && userRepository == users
      ensures roleRepository == roles && groupRepository == groups
    {
      treeRepository := trees;
      userRepository := users;
      roleRepository := roles;
      groupRepository := groups;
    }

    /**
      The store as initBaseData leaves it: every tree type has a root, every sentinel
      name is stored, and so is the administrator's login.
    */
    ghost predicate Seeded()
      reads treeRepository, userRepository
    {
      TreesSeeded(treeRepository.trees) && userRepository.HasLogin(AdminLogin)
    }

    /**
      initBaseData. The ghost results are the roots findRoot returned to the three tree
      seeders; each means something only when its seeder saved a batch.
    */
    method InitBaseData() returns (ghost menu: TreeEntity, ghost pageResource: TreeEntity, ghost standard: TreeEntity)
      modifies treeRepository, userRepository, roleRepository, groupRepository
      ensures Seeded()
      // On a store that is already seeded nothing is saved: a second run is a no-op.
      ensures old(Seeded()) ==>
                && treeRepository.trees == old(treeRepository.trees)
                && userRepository.users == old(userRepository.users)
                && roleRepository.roles == old(roleRepository.roles)
                && groupRepository.groups == old(groupRepository.groups)
      // The root loop ran first, and the tree seeders add no roots.
      ensures SeedRoots(old(treeRepository.trees)) <= treeRepository.trees
      ensures forall n :: n in treeRepository.trees - SeedRoots(old(treeRepository.trees)) ==> !n.IsRoot()
      // A seeder whose sentinel was missing saved its batch under the root of its type.
      ensures !Named(old(treeRepository.trees), MenuSentinel) ==>
                IsRootOf(menu, SeedRoots(old(treeRepository.trees)), Menu) &&
                multiset(MenuBatch(menu)) <= treeRepository.trees
      ensures !Named(old(treeRepository.trees), PageResourceSentinel) ==>
                IsRootOf(pageResource, SeedRoots(old(treeRepository.trees)), PageResource) &&
                multiset(PageResourceBatch(pageResource)) <= treeRepository.trees
      ensures !Named(old(treeRepository.trees), StandardSentinel) ==>
                IsRootOf(standard, SeedRoots(old(treeRepository.trees)), Standard) &&
                multiset(StandardBatch(standard)) <= treeRepository.trees
      // Exactly: the root loop's table plus the batch of each seeder whose sentinel was missing.
      ensures treeRepository.trees == SeededTrees(old(treeRepository.trees), menu, pageResource, standard)
      // initUser: nothing when "admin" exists, else the admin row with the role and group found.
      ensures old(userRepository.HasLogin(AdminLogin)) ==>
                && userRepository.users == old(userRepository.users)
                && roleRepository.roles == old(roleRepository.roles)
                && groupRepository.groups == old(groupRepository.groups)
      ensures !old(userRepository.HasLogin(AdminLogin)) ==>
                && roleRepository.roles ==
                     (if AdminRoleName in RoleNames(old(roleRepository.roles)) then old(roleRepository.roles)
                      else InitRoleRows(old(roleRepository.roles)))
                && groupRepository.groups ==
                     (if AdminGroupName in GroupNames(old(groupRepository.groups)) then old(groupRepository.groups)
                      else InitGroupRows(old(groupRepository.groups)))
                && roleRepository.FindByName(AdminRoleName).Some?
                && groupRepository.FindByName(AdminGroupName).Some?
                && userRepository.users ==
                     old(userRepository.users) + {AdminRecord(roleRepository.FindByName(AdminRoleName).value,
                                                              groupRepository.FindByName(AdminGroupName).value)}
      ensures old(userRepository.users) <= userRepository.users
      ensures old(roleRepository.roles) <= roleRepository.roles
      ensures old(groupRepository.groups) <= groupRepository.groups
    {
      assert treeRepository as object != userRepository as object;
      assert treeRepository as object != roleRepository as object;
      assert treeRepository as object != groupRepository as object;
      menu, pageResource, standard := InitTreeTable();
      InitUser();
    }

    /**
      The tree part of initBaseData: the root loop, then initMenuTree, initPageResourceTree
      and initStandardTree. The ghost results are the roots findRoot returned to the seeders.
    */
    method InitTreeTable() returns (ghost menu: TreeEntity, ghost pageResource: TreeEntity, ghost standard: TreeEntity)
      modifies treeRepository
      ensures TreesSeeded(treeRepository.trees)
      ensures TreesSeeded(old(treeRepository.trees)) ==> treeRepository.trees == old(treeRepository.trees)
      ensures SeedRoots(old(treeRepository.trees)) <= treeRepository.trees
      ensures forall n :: n in treeRepository.trees - SeedRoots(old(treeRepository.trees)) ==> !n.IsRoot()
      ensures !Named(old(treeRepository.trees), MenuSentinel) ==>
                IsRootOf(menu, SeedRoots(old(treeRepository.trees)), Menu) &&
                multiset(MenuBatch(menu)) <= treeRepository.trees
      ensures !Named(old(treeRepository.trees), PageResourceSentinel) ==>
                IsRootOf(pageResource, SeedRoots(old(treeRepository.trees)), PageResource) &&
                multiset(PageResourceBatch(pageResource)) <= treeRepository.trees
      ensures !Named(old(treeRepository.trees), StandardSentinel) ==>
                IsRootOf(standard, SeedRoots(old(treeRepository.trees)), Standard) &&
                multiset(StandardBatch(standard)) <= treeRepository.trees
      ensures treeRepository.trees == SeededTrees(old(treeRepository.trees), menu, pageResource, standard)
    {
      ghost var before := treeRepository.trees;
      InitRoots();
      SeedRootsSpec(before);

      menu := InitMenuTree();
      ghost var afterMenu := treeRepository.trees;
      pageResource := InitPageResourceTree();
      ghost var afterPageResource := treeRepository.trees;
      standard := InitStandardTree();
      InitTrees(before, afterMenu, afterPageResource, treeRepository.trees, menu, pageResource, standard);
    }

    /** The root loop at the head of initBaseData: a root node for every type without one. */
    method InitRoots()
      modifies treeRepository
      ensures treeRepository.trees == SeedRoots(old(treeRepository.trees))
    {
      var rootTreeType := treeRepository.FindTreeTypes();
      var listType := TreeTypeValues();
      ghost var before := treeRepository.trees;
      for i := 0 to |listType|
        invariant treeRepository.trees == before + MissingRoots(listType[..i], rootTreeType)
      {
        var t := listType[i];
        MissingRootsStep(listType, i, rootTreeType);
        if !(t in rootTreeType) {
          var root := RootNode(t);
          treeRepository.Save(root);
        }
      }
      assert listType[..|listType|] == listType;
    }

    /**
      initMenuTree; `menu` is the root findRoot returned when the batch was saved (a ghost
      result, of no meaning when nothing is saved: the Java method returns nothing).
    */
    method InitMenuTree() returns (ghost menu: TreeEntity)
      requires !Named(treeRepository.trees, MenuSentinel) ==> Menu in RootTypes(treeRepository.trees)
      modifies treeRepository
      ensures TreeSeedStep(old(treeRepository.trees), treeRepository.trees, MenuSentinel, Menu,
                           menu, MenuBatch(menu))
      ensures Named(treeRepository.trees, MenuSentinel)
      ensures RootTypes(treeRepository.trees) == RootTypes(old(treeRepository.trees))
    {
      var exist := treeRepository.FindByName(MenuSentinel);
      if exist != {} {
        menu := RootNode(Menu);
        return;
      }
      menu := CreateMenuTree();
    }

    /**
      initPageResourceTree; `pageResource` is the root findRoot returned when the batch was
      saved (a ghost result, of no meaning when nothing is saved: the Java method returns nothing).
    */
    method InitPageResourceTree() returns (ghost pageResource: TreeEntity)
      requires !Named(treeRepository.trees, PageResourceSentinel) ==> PageResource in RootTypes(treeRepository.trees)
      modifies treeRepository
      ensures TreeSeedStep(old(treeRepository.trees), treeRepository.trees, PageResourceSentinel, PageResource,
                           pageResource, PageResourceBatch(pageResource))
      ensures Named(treeRepository.trees, PageResourceSentinel)
      ensures RootTypes(treeRepository.trees) == RootTypes(old(treeRepository.trees))
    {
      var exist := treeRepository.FindByName(PageResourceSentinel);
      if exist != {} {
        pageResource := RootNode(PageResource);
        return;
      }
      pageResource := CreatePageResourceTree();
    }

    /**
      initStandardTree; `standard` is the root findRoot returned when the batch was saved (a ghost
      result, of no meaning when nothing is saved: the Java method returns nothing).
    */
    method InitStandardTree() returns (ghost standard: TreeEntity)
      requires !Named(treeRepository.trees, StandardSentinel) ==> Standard in RootTypes(treeRepository.trees)
      modifies treeRepository
      ensures TreeSeedStep(old(treeRepository.trees), treeRepository.trees, StandardSentinel, Standard,
                           standard, StandardBatch(standard))
      ensures Named(treeRepository.trees, StandardSentinel)
      ensures RootTypes(treeRepository.trees) == RootTypes(old(treeRepository.trees))
    {
      var exist := treeRepository.FindByName(StandardSentinel);
      if exist != {} {
        standard := RootNode(Standard);
        return;
      }
      standard := CreateStandardTree();
    }

    /**
      createMenuTree: the nodes it builds under the Menu root findRoot returns (the batch, one entry
      per node in the order they are added to its set), stored with one saveAll.
    */
    method CreateMenuTree() returns (ghost menuRoot: TreeEntity)
      requires Menu in RootTypes(treeRepository.trees)
      modifies treeRepository
      ensures IsRootOf(menuRoot, old(treeRepository.trees), Menu)
      ensures treeRepository.trees == old(treeRepository.trees) + multiset(MenuBatch(menuRoot))
      // The HashSet the Java collects the nodes in loses none: no node is built twice.
      ensures forall i, j :: 0 <= i < j < |MenuBatch(menuRoot)| ==> MenuBatch(menuRoot)[i] != MenuBatch(menuRoot)[j]
      // Every saved node lies in the tree under that root.
      ensures forall n :: n in MenuBatch(menuRoot) ==> Below(n, menuRoot)
      ensures Named(treeRepository.trees, MenuSentinel)
      ensures RootTypes(treeRepository.trees) == RootTypes(old(treeRepository.trees))
    {
      var found := treeRepository.FindRoot(Menu);
      var menu := found.value;
      var nodes := MenuBatch(menu);
      MenuBatchShape(menu);
      BatchesHaveNoDuplicates(menu, menu, menu);
      forall n | n in nodes ensures Below(n, menu) {
        BatchBelowRoot(nodes, menu, n);
      }
      SavedBatch(treeRepository.trees, menu, Menu, nodes, MenuSentinel);
      treeRepository.SaveAll(nodes);
      menuRoot := menu;
    }

    /**
      createPageResourceTree: the nodes it builds under the PageResource root findRoot returns (the batch, one entry
      per node in the order they are added to its set), stored with one saveAll.
    */
    method CreatePageResourceTree() returns (ghost pageResourceRoot: TreeEntity)
      requires PageResource in RootTypes(treeRepository.trees)
      modifies treeRepository
      ensures IsRootOf(pageResourceRoot, old(treeRepository.trees), PageResource)
      ensures treeRepository.trees == old(treeRepository.trees) + multiset(PageResourceBatch(pageResourceRoot))
      // The HashSet the Java collects the nodes in loses none: no node is built twice.
      ensures forall i, j :: 0 <= i < j < |PageResourceBatch(pageResourceRoot)| ==> PageResourceBatch(pageResourceRoot)[i] != PageResourceBatch(pageResourceRoot)[j]
      // Every saved node lies in the tree under that root.
      ensures forall n :: n in PageResourceBatch(pageResourceRoot) ==> Below(n, pageResourceRoot)
      ensures Named(treeRepository.trees, PageResourceSentinel)
      ensures RootTypes(treeRepository.trees) == RootTypes(old(treeRepository.trees))
    {
      var found := treeRepository.FindRoot(PageResource);
      var pageResource := found.value;
      var nodes := PageResourceBatch(pageResource);
      PageResourceBatchShape(pageResource);
      BatchesHaveNoDuplicates(pageResource, pageResource, pageResource);
      forall n | n in nodes ensures Below(n, pageResource) {
        BatchBelowRoot(nodes, pageResource, n);
      }
      SavedBatch(treeRepository.trees, pageResource, PageResource, nodes, PageResourceSentinel);
      treeRepository.SaveAll(nodes);
      pageResourceRoot := pageResource;
    }

    /**
      createStandardTree: the nodes it builds under the Standard root findRoot returns (the batch, one entry
      per node in the order they are added to its set), stored with one saveAll.
    */
    method CreateStandardTree() returns (ghost standardRoot: TreeEntity)
      requires Standard in RootTypes(treeRepository.trees)
      modifies treeRepository
      ensures IsRootOf(standardRoot, old(treeRepository.trees), Standard)
      ensures treeRepository.trees == old(treeRepository.trees) + multiset(StandardBatch(standardRoot))
      // The HashSet the Java collects the nodes in loses none: no node is built twice.
      ensures forall i, j :: 0 <= i < j < |StandardBatch(standardRoot)| ==> StandardBatch(standardRoot)[i] != StandardBatch(standardRoot)[j]
      // Every saved node lies in the tree under that root.
      ensures forall n :: n in StandardBatch(standardRoot) ==> Below(n, standardRoot)
      ensures Named(treeRepository.trees, StandardSentinel)
      ensures RootTypes(treeRepository.trees) == RootTypes(old(treeRepository.trees))
    {
      var found := treeRepository.FindRoot(Standard);
      var standard := found.value;
      var nodes := StandardBatch(standard);
      StandardBatchShape(standard);
      BatchesHaveNoDuplicates(standard, standard, standard);
      forall n | n in nodes ensures Below(n, standard) {
        BatchBelowRoot(nodes, standard, n);
      }
      SavedBatch(treeRepository.trees, standard, Standard, nodes, StandardSentinel);
      treeRepository.SaveAll(nodes);
      standardRoot := standard;
    }

    method InitUser()
      modifies userRepository, roleRepository, groupRepository
      ensures old(userRepository.HasLogin(AdminLogin)) ==>
                && userRepository.users == old(userRepository.users)
                && roleRepository.roles == old(roleRepository.roles)
                && groupRepository.groups == old(groupRepository.groups)
      ensures !old(userRepository.HasLogin(AdminLogin)) ==>
                && roleRepository.roles ==
                     (if AdminRoleName in RoleNames(old(roleRepository.roles)) then old(roleRepository.roles)
                      else InitRoleRows(old(roleRepository.roles)))
                && groupRepository.groups ==
                     (if AdminGroupName in GroupNames(old(groupRepository.groups)) then old(groupRepository.groups)
                      else InitGroupRows(old(groupRepository.groups)))
                && roleRepository.FindByName(AdminRoleName).Some?
                && groupRepository.FindByName(AdminGroupName).Some?
                && userRepository.users ==
                     old(userRepository.users) + {AdminRecord(roleRepository.FindByName(AdminRoleName).value,
                                                              groupRepository.FindByName(AdminGroupName).value)}
      ensures userRepository.HasLogin(AdminLogin)
      ensures old(userRepository.users) <= userRepository.users
      ensures old(roleRepository.roles) <= roleRepository.roles
      ensures old(groupRepository.groups) <= groupRepository.groups
    {
      var existing := userRepository.FindByLoginName(AdminLogin);
      if existing.Some? {
        return;
      }

      var user := new UserEntity();
      user.SetLoginName(AdminLogin);
      user.SetUserName(AdminUserName);
      user.SetPassword(BCryptOf(AdminPlainPassword));
      user.SetEmail(AdminEmail);
      user.SetValid(true);
      user.SetEnabled(true);
      assert unchanged(userRepository, roleRepository, groupRepository);
      ghost var account := user.Record();
      assert account == UserRecord(AdminLogin, AdminUserName, BCryptOf(AdminPlainPassword), AdminEmail, true, true, {}, {});

      var adminRole := FindOrInitAdminRole();
      assert user.Record() == account;
      if adminRole.Some? {
        user.AddRole(adminRole.value);
      }
      ghost var withRole := user.Record();
      assert withRole == account.(roles := {adminRole.value});
      var adminGroup := FindOrInitAdminGroup();
      assert user.Record() == withRole;
      if adminGroup.Some? {
        user.AddGroup(adminGroup.value);
      }
      assert user.Record() == withRole.(groups := {adminGroup.value});
      userRepository.Save(user);
    }

    /**
      The role step of initUser: look the administrator role up, run initRole when it is
      missing and look it up again. The second lookup always finds it.
    */
    method FindOrInitAdminRole() returns (adminRole: Option<RoleEntity>)
      modifies roleRepository
      ensures roleRepository.roles ==
                (if AdminRoleName in RoleNames(old(roleRepository.roles)) then old(roleRepository.roles)
                 else InitRoleRows(old(roleRepository.roles)))
      ensures adminRole.Some? && adminRole == roleRepository.FindByName(AdminRoleName)
    {
      adminRole := roleRepository.FindByName(AdminRoleName);
      if adminRole.None? {
        InitRole();
        adminRole := roleRepository.FindByName(AdminRoleName);
      }
    }

    /**
      The group step of initUser: look the administrator group up, run initGroup when it is
      missing and look it up again. The second lookup always finds it.
    */
    method FindOrInitAdminGroup() returns (adminGroup: Option<GroupEntity>)
      modifies groupRepository
      ensures groupRepository.groups ==
                (if AdminGroupName in GroupNames(old(groupRepository.groups)) then old(groupRepository.groups)
                 else InitGroupRows(old(groupRepository.groups)))
      ensures adminGroup.Some? && adminGroup == groupRepository.FindByName(AdminGroupName)
    {
      adminGroup := groupRepository.FindByName(AdminGroupName);
      if adminGroup.None? {
        InitGroup();
        adminGroup := groupRepository.FindByName(AdminGroupName);
      }
    }

    method InitGroup()
      modifies groupRepository
      ensures groupRepository.groups == InitGroupRows(old(groupRepository.groups))
    {
      if groupRepository.FindByName(AdminGroupName).Some? && groupRepository.FindByName(UserGroupName).Some? {
        return;
      }
      var admins := GroupEntity(AdminGroupName, true, true);
      var users := GroupEntity(UserGroupName, true, true);
      groupRepository.Save(admins);
      groupRepository.Save(users);
    }

    method InitRole()
      modifies roleRepository
      ensures roleRepository.roles == InitRoleRows(old(roleRepository.roles))
    {
      if roleRepository.FindByName(AdminRoleName).Some? && roleRepository.FindByName(UserRoleName).Some? {
        return;
      }
      var admins := RoleEntity(AdminRoleName, true, true);
      var users := RoleEntity(UserRoleName, true, true);
      roleRepository.Save(admins);
      roleRepository.Save(users);
    }
  }
}
