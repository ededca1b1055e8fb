# Start-up seeding of the base data, and the scalar-count helper

This project is a Dafny model of three pieces of a Spring Boot web application and its
companion library:

- **InitializeService** (`com.base.spring.initialize`). At start-up, `initBaseData`:
  - makes sure every `TreeType` has a root node. The enum's declaration is not part of this
    model: the model assumes the constants Menu, DepartMent, PageResource and Standard, in that
    order, inferred from their uses in the service;
  - runs three guarded tree seeders. Each one saves a fixed batch of nodes under the root of
    its type, unless a node with its *sentinel* name already exists. The sentinels are
    "菜单管理" for the menu tree, "按钮/资源" for the page-resource tree and "国家标准" for the
    standard tree;
  - seeds the administrator account "admin", unless that login exists. It creates the
    administrator role and group on demand, through `initRole` and `initGroup`.
- **MyDbUtils** (`org.h819.web.jdbc`):
  - `objectToInteger` turns a scalar query result into a Java `int`. Java's `null`, blank
    text and text `Integer.parseInt` rejects all become 0;
  - the two `getCount` overloads run a scalar query and convert its result. An
    `SQLException` becomes 0.
- **Order** (`org.h819.web.spring.jdbc`): a sort condition made of a property name and a
  `Direction` (ASC, DESC), with getters and setters.

How the code is laid out:

- `wrappers.dfy`: `Option`.
- `domain.dfy`: the entities.
  - Tree nodes, roles and groups are values.
  - `UserEntity` is a class whose setters update its fields in place.
- `repository.dfy`: the four Spring Data repositories the service calls, as in-memory stores.
  - The tree table is a multiset of nodes.
  - The user table is a set of saved rows.
  - The role and group tables are sequences in save order.
- `initialize_service.dfy`: the service, as a class over the four repositories. It also holds
  the pure specification each method is proved against:
  - `SeedRoots` for the root loop;
  - `MenuBatch`, `PageResourceBatch` and `StandardBatch` for the three batches;
  - `GuardedSeed` and `TreeSeedStep` for a seeder, linked by `TreeSeedStepGuarded`;
  - `SeededTrees` for the tree table `initBaseData` leaves;
  - `InitRoleRows` and `InitGroupRows` for `initRole` and `initGroup`.
- `my_db_utils.dfy`: `objectToInteger` and `getCount`, with models of `String.trim` and
  `Integer.parseInt`.
- `order.dfy`: `Order` and `Direction`.

Behaviours the proofs make explicit:

- `initBaseData` is idempotent. On a store it has already seeded it saves nothing in any of
  the four tables.
- The page-resource batch is saved with type `Menu`, not `PageResource`, as the code
  constructs it. Only its root is found under the PageResource type.
- `initRole` and `initGroup` save both names when either one is missing. A name that was
  already stored is then stored twice.
- `objectToInteger` tests blankness on the trimmed text but parses the untrimmed text. So
  `" 5"` converts to 0, as does a count above 2^31-1.

## Model

| member | source | states |
|---|---|---|
| Initialize.InitializeService.InitBaseData | spring-boot-webapp/src/main/java/com/base/spring/initialize/InitializeService.java:52-80 | afterwards every tree type has a root, every sentinel is stored and the admin login exists; on a store already in that state none of the four tables changes; the root loop's roots are kept and the tree seeders add no root; each seeder whose sentinel was missing saved its whole batch under a root the loop left; the tree table is exactly SeededTrees: the loop's table plus the batch of each seeder whose sentinel was missing at the start; with "admin" stored the user, role and group tables are unchanged, otherwise the role and group tables go through initRole and initGroup only when the admin role or group was missing and exactly the admin row is added; no table loses rows |
| Initialize.InitializeService.InitTreeTable | spring-boot-webapp/src/main/java/com/base/spring/initialize/InitializeService.java:54-73 | the tree part of initBaseData: afterwards every type is rooted and every sentinel stored; a seeded table is unchanged; the table is exactly SeededTrees of the one it started from; each seeder whose sentinel was missing saved its batch under a root the loop left |
| Initialize.InitializeService.InitRoots | spring-boot-webapp/src/main/java/com/base/spring/initialize/InitializeService.java:58-66 | the loop over TreeType.values() leaves the tree table equal to SeedRoots of the table it started from |
| Initialize.MissingRootsSeeded | spring-boot-webapp/src/main/java/com/base/spring/initialize/InitializeService.java:58-66 | every root the loop saves is a "root_"+type parent node without a parent, for a visited type that findTreeTypes did not report |
| Initialize.MissingRootsCover | spring-boot-webapp/src/main/java/com/base/spring/initialize/InitializeService.java:58-66 | every visited type that findTreeTypes did not report gets its root |
| Initialize.MissingRootsOnce | spring-boot-webapp/src/main/java/com/base/spring/initialize/InitializeService.java:58-66 | when the visited types have no repeats, no root is saved twice |
| Initialize.SeedRootsSpec | spring-boot-webapp/src/main/java/com/base/spring/initialize/InitializeService.java:58-66 | after the loop every type has a root; nothing is removed; each added node is a seeded root of a previously unrooted type; at most one is added per node |
| Initialize.SeedRootsIdle | spring-boot-webapp/src/main/java/com/base/spring/initialize/InitializeService.java:58-66 | when every type already has a root, the loop saves nothing |
| Initialize.SeedRootsIdempotent | spring-boot-webapp/src/main/java/com/base/spring/initialize/InitializeService.java:58-66 | running the loop twice gives the table of running it once |
| Initialize.SeedRootsKeepsMissing | spring-boot-webapp/src/main/java/com/base/spring/initialize/InitializeService.java:62-63 | no root the loop saves carries a sentinel name, so a missing sentinel stays missing |
| Initialize.InitializeService.InitMenuTree | spring-boot-webapp/src/main/java/com/base/spring/initialize/InitializeService.java:102-117 | if "菜单管理" is stored the table is unchanged, else the menu batch is added under a stored Menu root; afterwards the sentinel is stored and the rooted types are unchanged |
| Initialize.InitializeService.InitPageResourceTree | spring-boot-webapp/src/main/java/com/base/spring/initialize/InitializeService.java:126-141 | the same for "按钮/资源" and the page-resource batch under the PageResource root |
| Initialize.InitializeService.InitStandardTree | spring-boot-webapp/src/main/java/com/base/spring/initialize/InitializeService.java:143-158 | the same for "国家标准" and the standard batch under the Standard root |
| Initialize.InitializeService.CreateMenuTree | spring-boot-webapp/src/main/java/com/base/spring/initialize/InitializeService.java:268-396 | the table gains exactly the 26 nodes of MenuBatch, hung under the stored Menu root findRoot returned; the sentinel is stored afterwards; no new root type appears; no node of the batch is built twice, so the HashSet keeps all 26; every saved node lies below the root |
| Initialize.InitializeService.CreatePageResourceTree | spring-boot-webapp/src/main/java/com/base/spring/initialize/InitializeService.java:160-218 | the table gains exactly the 16 nodes of PageResourceBatch under the stored PageResource root; the sentinel is stored afterwards; no new root type appears; no node of the batch is built twice, so the HashSet keeps all 16; every saved node lies below the root |
| Initialize.InitializeService.CreateStandardTree | spring-boot-webapp/src/main/java/com/base/spring/initialize/InitializeService.java:221-266 | the table gains exactly the 18 nodes of StandardBatch under the stored Standard root; the sentinel is stored afterwards; no new root type appears; no node of the batch is built twice, so the HashSet keeps all 18; every saved node lies below the root |
| Initialize.BatchHangsUnder | spring-boot-webapp/src/main/java/com/base/spring/initialize/InitializeService.java:268-396 | a batch built from a node table has one node per entry, of the given type and with the entry's name, each hung under the root or under another node of the batch |
| Initialize.MenuBatchShape | spring-boot-webapp/src/main/java/com/base/spring/initialize/InitializeService.java:268-396 | createMenuTree's batch has 26 nodes, all of type Menu, each under the root or another batch node, "菜单管理" among them |
| Initialize.PageResourceBatchShape | spring-boot-webapp/src/main/java/com/base/spring/initialize/InitializeService.java:160-218 | createPageResourceTree's batch has 16 nodes, all of type Menu, each under the root or another batch node, "按钮/资源" among them |
| Initialize.StandardBatchShape | spring-boot-webapp/src/main/java/com/base/spring/initialize/InitializeService.java:221-266 | createStandardTree's batch has 18 nodes, all of type Standard, each under the root or another batch node, "国家标准" among them |
| Initialize.BatchDistinct | spring-boot-webapp/src/main/java/com/base/spring/initialize/InitializeService.java:268-396 | a batch built from a table whose entries differ in name, sort or parent flag holds no node twice |
| Initialize.BatchesHaveNoDuplicates | spring-boot-webapp/src/main/java/com/base/spring/initialize/InitializeService.java:160-396 | none of the three batches constructs the same node twice, so the HashSet each seeder fills keeps every node |
| Initialize.BatchBelowRoot | spring-boot-webapp/src/main/java/com/base/spring/initialize/InitializeService.java:268-396 | in a batch whose nodes all hang under the root, following parent links from any node reaches the root |
| Initialize.BatchesApart | spring-boot-webapp/src/main/java/com/base/spring/initialize/InitializeService.java:160-396 | the menu batch holds neither later sentinel, and the page-resource batch does not hold "国家标准" |
| Initialize.RootNamesApart | spring-boot-webapp/src/main/java/com/base/spring/initialize/InitializeService.java:62 | no "root_"+type name equals a sentinel |
| Initialize.GuardedSeedIdempotent | spring-boot-webapp/src/main/java/com/base/spring/initialize/InitializeService.java:102-117 | a guarded seeder whose batch holds its sentinel leaves the sentinel stored, and a second run saves nothing |
| Initialize.MenuSeedIdempotent | spring-boot-webapp/src/main/java/com/base/spring/initialize/InitializeService.java:102-117 | initMenuTree run twice, under any roots, gives the table of one run |
| Initialize.PageResourceSeedIdempotent | spring-boot-webapp/src/main/java/com/base/spring/initialize/InitializeService.java:126-141 | initPageResourceTree run twice gives the table of one run |
| Initialize.StandardSeedIdempotent | spring-boot-webapp/src/main/java/com/base/spring/initialize/InitializeService.java:143-158 | initStandardTree run twice gives the table of one run |
| Initialize.TreeSeedStepGrows | spring-boot-webapp/src/main/java/com/base/spring/initialize/InitializeService.java:102-117 | a seeder step removes nothing and leaves its sentinel stored |
| Initialize.TreeSeedStepRoots | spring-boot-webapp/src/main/java/com/base/spring/initialize/InitializeService.java:102-117 | a seeder step adds no root and keeps the set of rooted types |
| Initialize.TreeSeedStepKeepsMissing | spring-boot-webapp/src/main/java/com/base/spring/initialize/InitializeService.java:102-117 | a seeder step whose batch lacks a name leaves that name missing |
| Initialize.SeederStepsSeed | spring-boot-webapp/src/main/java/com/base/spring/initialize/InitializeService.java:52-74 | after the loop and the three seeders: every type is rooted; every sentinel is stored; a seeded table is unchanged; nothing is removed; no root is added after the loop |
| Initialize.SeederStepsSave | spring-boot-webapp/src/main/java/com/base/spring/initialize/InitializeService.java:52-74 | each seeder whose sentinel was missing at the start still finds it missing on its turn and saves its batch under a root present after the loop |
| Initialize.InitTrees | spring-boot-webapp/src/main/java/com/base/spring/initialize/InitializeService.java:52-74 | SeederStepsSeed and SeederStepsSave, instantiated with the three actual batches, and the final table is exactly SeededTrees |
| Initialize.TreeSeedStepGuarded | spring-boot-webapp/src/main/java/com/base/spring/initialize/InitializeService.java:102-117 | what a seeder method does to the table is GuardedSeed of the table, the function the idempotence lemmas are about |
| Initialize.GuardedSeedNamed | spring-boot-webapp/src/main/java/com/base/spring/initialize/InitializeService.java:102-117 | a seeder whose batch lacks a name stores that name exactly when it was stored before |
| Initialize.SeedRootsNamed | spring-boot-webapp/src/main/java/com/base/spring/initialize/InitializeService.java:58-66 | the root loop stores a sentinel exactly when it was stored before |
| Initialize.GuardedSeedsAdd | spring-boot-webapp/src/main/java/com/base/spring/initialize/InitializeService.java:58-73 | the loop then the three guarded seeders give the loop's table plus the batch of each seeder whose sentinel was missing at the start |
| Initialize.InitRoleRows | spring-boot-webapp/src/main/java/com/base/spring/initialize/InitializeService.java:492-517 | initRole keeps every stored role; afterwards both role names are stored; it adds both names unless both were present; the added rows are valid and enabled |
| Initialize.InitGroupRows | spring-boot-webapp/src/main/java/com/base/spring/initialize/InitializeService.java:461-486 | the same for the administrator group and the user group |
| Initialize.InitRoleDuplicates | spring-boot-webapp/src/main/java/com/base/spring/initialize/InitializeService.java:494-515 | when only one of the two role names is stored, initRole stores that name once more, so it appears at least twice |
| Initialize.InitGroupDuplicates | spring-boot-webapp/src/main/java/com/base/spring/initialize/InitializeService.java:463-484 | the same for groups |
| Initialize.InitRoleIdempotent | spring-boot-webapp/src/main/java/com/base/spring/initialize/InitializeService.java:492-517 | a second initRole saves nothing |
| Initialize.InitGroupIdempotent | spring-boot-webapp/src/main/java/com/base/spring/initialize/InitializeService.java:461-486 | a second initGroup saves nothing |
| Initialize.InitializeService.InitRole | spring-boot-webapp/src/main/java/com/base/spring/initialize/InitializeService.java:492-517 | the role table becomes InitRoleRows of what it was |
| Initialize.InitializeService.InitGroup | spring-boot-webapp/src/main/java/com/base/spring/initialize/InitializeService.java:461-486 | the group table becomes InitGroupRows of what it was |
| Initialize.InitializeService.InitUser | spring-boot-webapp/src/main/java/com/base/spring/initialize/InitializeService.java:405-454 | with "admin" stored, no table changes; otherwise the role and group tables go through initRole and initGroup only when the admin role or group was missing; exactly one user row is added: "admin", its fields as set, the BCrypt of "sysadmin", the stored admin role and group; afterwards "admin" exists |
| Initialize.InitializeService.FindOrInitAdminRole | spring-boot-webapp/src/main/java/com/base/spring/initialize/InitializeService.java:429-433 | initRole runs exactly when the admin role is missing; the second lookup always finds the role |
| Initialize.InitializeService.FindOrInitAdminGroup | spring-boot-webapp/src/main/java/com/base/spring/initialize/InitializeService.java:442-446 | initGroup runs exactly when the admin group is missing; the second lookup always finds the group |
| Domain.TreeTypeValues | spring-boot-webapp/src/main/java/com/base/spring/initialize/InitializeService.java:59 | values() of the model's TreeType holds every constant exactly once, at its ordinal; the constants and their order are inferred, not taken from the enum's declaration |
| Domain.UserEntity.constructor | spring-boot-webapp/src/main/java/com/base/spring/initialize/InitializeService.java:417 | a new user has empty fields, no roles and no groups |
| Domain.UserEntity.SetLoginName | spring-boot-webapp/src/main/java/com/base/spring/initialize/InitializeService.java:418 | sets the login name and changes no other field |
| Domain.UserEntity.SetUserName | spring-boot-webapp/src/main/java/com/base/spring/initialize/InitializeService.java:419 | sets the user name and changes no other field |
| Domain.UserEntity.SetPassword | spring-boot-webapp/src/main/java/com/base/spring/initialize/InitializeService.java:420 | sets the encoded password and changes no other field |
| Domain.UserEntity.SetEmail | spring-boot-webapp/src/main/java/com/base/spring/initialize/InitializeService.java:421 | sets the email and changes no other field |
| Domain.UserEntity.SetValid | spring-boot-webapp/src/main/java/com/base/spring/initialize/InitializeService.java:422 | sets the valid flag and changes no other field |
| Domain.UserEntity.SetEnabled | spring-boot-webapp/src/main/java/com/base/spring/initialize/InitializeService.java:423 | sets the enabled flag and changes no other field |
| Domain.UserEntity.AddRole | spring-boot-webapp/src/main/java/com/base/spring/initialize/InitializeService.java:435-437 | the role joins the user's role set; no other field changes |
| Domain.UserEntity.AddGroup | spring-boot-webapp/src/main/java/com/base/spring/initialize/InitializeService.java:448-450 | the group joins the user's group set; no other field changes |
| Repository.RootTypes | spring-boot-webapp/src/main/java/com/base/spring/initialize/InitializeService.java:58 | findTreeTypes reports a type exactly when a stored root node has that type |
| Repository.TreeRepository.FindTreeTypes | spring-boot-webapp/src/main/java/com/base/spring/initialize/InitializeService.java:58 | reports a type exactly when a stored node of that type has no parent |
| Repository.TreeRepository.FindByName | spring-boot-webapp/src/main/java/com/base/spring/initialize/InitializeService.java:105-107 | returns exactly the stored nodes with that name; the result is empty exactly when no stored node has the name |
| Repository.TreeRepository.FindRoot | spring-boot-webapp/src/main/java/com/base/spring/initialize/InitializeService.java:271 | finds a root exactly when the type is rooted, and what it finds is a stored root of that type |
| Repository.TreeRepository.Save | spring-boot-webapp/src/main/java/com/base/spring/initialize/InitializeService.java:64 | the node is stored once more |
| Repository.TreeRepository.SaveAll | spring-boot-webapp/src/main/java/com/base/spring/initialize/InitializeService.java:395 | every node of the batch is stored once more |
| Repository.UserRepository.FindByLoginName | spring-boot-webapp/src/main/java/com/base/spring/initialize/InitializeService.java:410 | present exactly when a stored user has the login, and then it is such a user |
| Repository.UserRepository.Save | spring-boot-webapp/src/main/java/com/base/spring/initialize/InitializeService.java:452 | the entity's current field values become a stored row |
| Repository.RoleRepository.FindByName | spring-boot-webapp/src/main/java/com/base/spring/initialize/InitializeService.java:429 | present exactly when a stored role has the name, and then it is a stored role with that name |
| Repository.GroupRepository.FindByName | spring-boot-webapp/src/main/java/com/base/spring/initialize/InitializeService.java:442 | present exactly when a stored group has the name, and then it is a stored group with that name |
| Repository.RoleRepository.Save | spring-boot-webapp/src/main/java/com/base/spring/initialize/InitializeService.java:515-516 | the role is appended at the end of the role table, which is otherwise unchanged |
| Repository.GroupRepository.Save | spring-boot-webapp/src/main/java/com/base/spring/initialize/InitializeService.java:483-484 | the group is appended at the end of the group table, which is otherwise unchanged |
| Repository.FirstRoleNamedFound | spring-boot-webapp/src/main/java/com/base/spring/initialize/InitializeService.java:429 | the first-match lookup finds a role exactly when the name is stored, and finds a stored role of that name |
| Repository.FirstGroupNamedFound | spring-boot-webapp/src/main/java/com/base/spring/initialize/InitializeService.java:442 | the same for groups |
| Jdbc.ObjectToInteger | h819-commons/src/main/java/org/h819/web/jdbc/MyDbUtils.java:379-389 | the result is always a Java int; null gives 0; blank text gives 0; text parseInt accepts gives its value; any other text gives 0 |
| Jdbc.ObjectToIntegerOfInt | h819-commons/src/main/java/org/h819/web/jdbc/MyDbUtils.java:379-389 | a scalar printing as the decimal text of an int converts to exactly that int |
| Jdbc.ObjectToIntegerOverflow | h819-commons/src/main/java/org/h819/web/jdbc/MyDbUtils.java:379-389 | a scalar printing as a number outside the int range converts to 0 |
| Jdbc.ObjectToIntegerPadded | h819-commons/src/main/java/org/h819/web/jdbc/MyDbUtils.java:382-383 | text with leading or trailing whitespace converts to 0, because parseInt sees the untrimmed text |
| Jdbc.ObjectToIntegerNonNumeric | h819-commons/src/main/java/org/h819/web/jdbc/MyDbUtils.java:382-386 | text with a character that is neither a digit nor a leading sign converts to 0 |
| Jdbc.Trim | h819-commons/src/main/java/org/h819/web/jdbc/MyDbUtils.java:382 | the result is the input with a blank prefix and a blank suffix cut off; it is empty exactly when every character is at most U+0020, and otherwise starts and ends with characters above U+0020 |
| Jdbc.TrimAround | h819-commons/src/main/java/org/h819/web/jdbc/MyDbUtils.java:382 | the two halves of trim leave the input without a blank prefix and a blank suffix |
| Jdbc.TrimLeading | h819-commons/src/main/java/org/h819/web/jdbc/MyDbUtils.java:382 | drops exactly a blank prefix and leaves text that does not start with a blank character |
| Jdbc.TrimTrailing | h819-commons/src/main/java/org/h819/web/jdbc/MyDbUtils.java:382 | drops exactly a blank suffix and leaves text that does not end with a blank character |
| Jdbc.ParseInt | h819-commons/src/main/java/org/h819/web/jdbc/MyDbUtils.java:383 | an accepted text gives a value in the int range, starts with a non-blank character and ends with a digit |
| Jdbc.ParseFormat | h819-commons/src/main/java/org/h819/web/jdbc/MyDbUtils.java:383 | parseInt of the decimal text of any int gives that int back |
| Jdbc.ParseFormatOutOfRange | h819-commons/src/main/java/org/h819/web/jdbc/MyDbUtils.java:383 | parseInt rejects the decimal text of any value outside the int range |
| Jdbc.ParseSigned | h819-commons/src/main/java/org/h819/web/jdbc/MyDbUtils.java:383 | parseInt accepts an optional "+" or "-" followed by digits in range, with the signed value |
| Jdbc.ParseSignedOutOfRange | h819-commons/src/main/java/org/h819/web/jdbc/MyDbUtils.java:383-386 | parseInt rejects an optional sign followed by digits whose signed value is outside the int range, leading zeros or not, so objectToInteger gives 0 |
| Jdbc.ParseIntAccepted | h819-commons/src/main/java/org/h819/web/jdbc/MyDbUtils.java:383 | every text parseInt accepts is an optional sign followed by a non-empty run of digits, and the result is their signed value |
| Jdbc.BlankNotParsed | h819-commons/src/main/java/org/h819/web/jdbc/MyDbUtils.java:382-383 | parseInt rejects blank text, so the blank test never changes the result |
| Jdbc.NatDigitsValue | h819-commons/src/main/java/org/h819/web/jdbc/MyDbUtils.java:383 | the decimal digits of a natural number read back as that number |
| Jdbc.GetCount | h819-commons/src/main/java/org/h819/web/jdbc/MyDbUtils.java:353-361 | the result is an int: the converted scalar, or 0 when the query throws SQLException |
| Jdbc.GetCountNoParams | h819-commons/src/main/java/org/h819/web/jdbc/MyDbUtils.java:369-377 | the same for the query run without parameters |
| SpringJdbc.Order.constructor | h819-commons/src/main/java/org/h819/web/spring/jdbc/Order.java:20-24 | the getters return the property and the direction it was built with |
| SpringJdbc.Order.GetDirection | h819-commons/src/main/java/org/h819/web/spring/jdbc/Order.java:33-35 | returns the stored direction |
| SpringJdbc.Order.GetProperty | h819-commons/src/main/java/org/h819/web/spring/jdbc/Order.java:41-43 | returns the stored property |
| SpringJdbc.Order.SetDirection | h819-commons/src/main/java/org/h819/web/spring/jdbc/Order.java:37-39 | the direction is replaced and the property kept |
| SpringJdbc.Order.SetProperty | h819-commons/src/main/java/org/h819/web/spring/jdbc/Order.java:45-47 | the property is replaced and the direction kept |
| SpringJdbc.DirectionValues | h819-commons/src/main/java/org/h819/web/spring/jdbc/Order.java:49-51 | Direction has exactly the two constants ASC and DESC, each at its ordinal |

## Left out

- Domain.TreeType: the enum's declaration is not part of this model. Menu, PageResource and
  Standard are the constants the service names; DepartMent is inferred from a URL the menu
  batch uses. Their declaration order is assumed, and only the order of the root loop depends
  on it.
- Logging (`log.info`) and `printStackTrace` have no effect on the model.
- The `@PostConstruct` and `@Transactional` annotations, Spring wiring and the database
  behind the repositories are left out. The repositories are in-memory stores. The service
  gets them in its constructor.
- Running all of initBaseData as one transaction, and rolling it back, is not modelled.
- BCrypt encoding (`BCryptPassWordUtils.encode`) is not part of this model. A password is the
  opaque value `BCryptOf(plain)`. Real encoding is salted and random.
- The `setCss` and `setUrl` calls createMenuTree makes on its nodes are not modelled, and
  neither are the fields they set. Nothing in the seeding logic reads them.
- `TreeEntity`, `RoleEntity` and `GroupEntity` are values compared field by field. Their Java
  `equals`/`hashCode` are not part of this model.
  - The seeders collect each batch into a `HashSet` before `saveAll`. The model keeps the
    batch as a sequence in the order the nodes are added, and stores every node once.
    Initialize.BatchesHaveNoDuplicates shows that no node is constructed twice, so the set
    drops nothing.
  - The model does not describe HashSet's iteration order, which is the order `saveAll`
    saves in.
- The queries behind `findTreeTypes` and `findRoot` are not part of this model. Repository.RootTypes
  assumes `findTreeTypes` reports exactly the types of the stored nodes without a parent, and
  Repository.TreeRepository.FindRoot assumes `findRoot` returns such a node. That `.get()`
  never fails in `initBaseData` rests on these assumptions.
- Repository.RoleRepository.FindByName and Repository.GroupRepository.FindByName return the
  first of several stored rows with the name. The repository's query is not part of this
  model, so which of several duplicates it returns is a choice of the model.
- Domain.TreeTypeName assumes that `TreeType.toString()` is the constant's name, so the roots
  are named "root_Menu" and so on. The proofs rely only on the "root_" prefix.
- Domain.UserEntity.constructor starts the text fields as "", the password as `NoPassword` and
  the flags as false, where Java holds `null` and false. `initUser` overwrites every one of
  these fields before saving, so the difference is never observed.
- Repository.RoleRepository.FindByName, Repository.GroupRepository.FindByName and
  Repository.TreeRepository.FindRoot always return one row when several match. If the
  repository declares them as single-result queries, Spring Data would throw on several
  matches instead; that throwing path is not modelled.
- Repository.TreeRepository.FindRoot returns some stored root of the type, not a specific
  one, when several exist. Which root the repository's query returns is not specified.
- The create-tree methods require a root of their type, standing in for `Optional.get()`,
  which throws on an empty result. `initBaseData` always meets this requirement. The
  throwing path itself is not modelled.
- Initialize.InitializeService.InitMenuTree, InitPageResourceTree, InitStandardTree,
  CreateMenuTree, CreatePageResourceTree and CreateStandardTree return the root findRoot gave
  as a ghost result. The Java methods return nothing. The result only names the root in the
  contracts.
- Initialize.InitializeService.InitRoots is the root loop at the head of `initBaseData`,
  moved out into a method of its own. InitTreeTable is the tree part of `initBaseData`
  (the root loop and the three seeders), moved out the same way. Likewise FindOrInitAdminRole and FindOrInitAdminGroup
  are the role and group steps of `initUser`.
- The create-tree methods compute their batch with MenuBatch, PageResourceBatch and
  StandardBatch. These are built from a node table whose rows give each node's name, sort,
  parent flag and parent position. The straight-line construction of the Java, one local
  variable per node, is not repeated statement by statement.
- Repository.UserRepository.Save stores a snapshot of the entity's fields. Later changes to
  the saved Java object are not modelled: `initUser` makes none.
- Java's `int` `sort` field is an unbounded `int`. Only the small constants of the batches
  are stored in it.
- Jdbc.ParseInt accepts only ASCII digits. Java's `Character.digit` also accepts other
  Unicode decimal digits.
- A scalar is modelled by the text of its `toString()`. Any `Object` other than `null` is
  therefore a string here. The query runner is a function parameter of GetCount and
  GetCountNoParams, so its SQL semantics are not modelled.
- The other methods of MyDbUtils (queries returning lists, maps and beans; transactions) are
  not part of this model.
- SpringJdbc.Order.constructor, SetProperty and SetDirection: Java's `null` is not modelled for
  `property` or `direction`. The Java constructor and setters accept `null`; the model has no
  such value.
- `Order`'s private no-argument constructor cannot be called from outside the class and is
  not modelled.
