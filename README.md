# UaiCores production line: a Dafny model of the order, item and user services

UaiCores is a small back office for a production line. Clients place orders, and
each order holds items. Every item passes through production stages, from IMPRESSO
to ACABAMENTO. An order goes from PRODUCAO (in production) to FINALIZADO (waiting
for shipping) to POSTADO (posted). Users are OFFICER, ADMIN or DEV. What each may
do depends on the role. Sessions are kept with short-lived access tokens and with
refresh tokens, which are rotated.

This project models the service and repository layer of that back office:

- creating items, attaching them to orders, and the role-gated partial update of
  an item;
- user administration: role precedence, who may create whom, username checks,
  and update and delete;
- issuing and rotating refresh tokens;
- the two-way link between an order and its items, whose item side the order
  listings read;
- order creation and the order listings;
- the repository queries: status filters, the "last sent" sort, posted-date
  ranges and the four newest orders;
- the weekly figures of the dashboard;
- the username lookup, which trims the name first.

Modules:

- **`Common`**: the option, result and error types, and `Page`, which is Panache's
  `page(p, s)`.
- **`Entities`**: the enumerations, and the item and order entities as classes that
  point at each other. Clients, users and refresh tokens are value records.
- **`Store`**: the database as a class with one table per entity, the identity
  counters, and the `findById` lookups.
- **`OrderRepository`** and **`UserRepository`**: the queries.
- **`ItemService`**, **`UserService`**, **`OrderService`**, **`JwtService`** and
  **`AnalyticsService`**: the services.

Operations that change entity fields are methods with `modifies` frames over those
fields. Queries and projections are functions. Several things come in as
parameters:

- the clock: today as an epoch day, now as epoch seconds;
- the caller's roles;
- BCrypt, as `hash` and `matches`;
- freshly generated UUIDs and fresh user ids.

Item and order ids come from the database's identity counters.

## Model

| member | source | states |
|---|---|---|
| Common.Page | src/main/java/dev/senna/repository/OrderRepository.java:17-21 | `page(p, s)`: at most `s` rows; empty when the first index `p*s` is past the end; otherwise exactly `min(s, n - p*s)` rows; row `k` is table row `p*s + k` |
| Common.PageIsSubset | src/main/java/dev/senna/repository/OrderRepository.java:19 | every row of a page is a row of the table |
| Entities.OrderEntity.constructor | src/main/java/dev/senna/model/entity/OrderEntity.java:13-41 | a new order holds the given id, dates, posted flag, client and status, has no posted date, and has an empty item list |
| Entities.OrderEntity.AddItem | src/main/java/dev/senna/model/entity/OrderEntity.java:48-51 | the item is appended after the previous items, which keep their order; the item's back-reference is this order; no other field changes |
| Entities.OrderEntity.RemoveItem | src/main/java/dev/senna/model/entity/OrderEntity.java:56-59 | the list becomes `List.remove`'s result (first occurrence only); the back-reference is null even when the item was not listed |
| Entities.RemoveFirst | src/main/java/dev/senna/model/entity/OrderEntity.java:57 | unchanged when absent; otherwise one element shorter, with multiset equal to the old one minus one copy of the item |
| Entities.RemoveFirstSplits | src/main/java/dev/senna/model/entity/OrderEntity.java:57 | removal cuts at the first occurrence and joins both sides in their old order |
| Entities.RemoveAfterAppend | src/main/java/dev/senna/model/entity/OrderEntity.java:48-59 | removing an item, not listed before, that `addItem` just appended restores the original list |
| Store.FindOrder | src/main/java/dev/senna/service/ItemService.java:48-49 | none exactly when the id is null or no order has it; otherwise a stored order with that id |
| Store.FindItem | src/main/java/dev/senna/service/ItemService.java:71-72 | none exactly when no item has the id; otherwise a stored item with that id |
| Entities.RoleName | src/main/java/dev/senna/model/enums/UserRole.java:5-17 | the display names: "External Officer" for OFFICER, "Administrator" for ADMIN, "Developer" for DEV |
| Entities.InProductionStatus | src/main/java/dev/senna/service/ItemService.java:79-86 | the production line's six statuses: a status is in the list exactly when it is not EMBALADO |
| Entities.ItemEntity.constructor | src/main/java/dev/senna/model/entity/ItemEntity.java:10-19 | the new item holds exactly the id, name, quantities, material, image, status and order it is given |
| Store.FindClient | src/main/java/dev/senna/service/OrderService.java:33 | none exactly when the id is null or unknown; otherwise a stored client with that id |
| Store.UserIndex | src/main/java/dev/senna/service/UserService.java:98-102 | the position of the first user with the id, or none when no user has it |
| Store.FindUser | src/main/java/dev/senna/service/UserService.java:98-102 | none exactly when no user has the id; otherwise a stored user with that id |
| UserRepository.Lead | src/main/java/dev/senna/repository/UserRepository.java:26 | the length of the longest prefix of characters up to U+0020 |
| UserRepository.Trail | src/main/java/dev/senna/repository/UserRepository.java:26 | the length of the longest suffix of characters up to U+0020 |
| UserRepository.IsBlank | src/main/java/dev/senna/repository/UserRepository.java:23 | null, or made only of characters `trim` removes (at most U+0020) |
| UserRepository.Trim | src/main/java/dev/senna/repository/UserRepository.java:26 | `String.trim`: no longer than the input; a non-empty result starts and ends with a character above U+0020 |
| UserRepository.TrimIsSlice | src/main/java/dev/senna/repository/UserRepository.java:26 | the trimmed string is one slice of the input; everything cut off on either side is at most U+0020; the slice's ends are kept characters |
| UserRepository.TrimUnique | src/main/java/dev/senna/repository/UserRepository.java:26 | any slice with those properties is the trimmed string |
| UserRepository.TrimEmptyIffAllTrimmed | src/main/java/dev/senna/repository/UserRepository.java:23 | `trim().isEmpty()` exactly when every character is at most U+0020 |
| UserRepository.TrimOfEmbedded | src/main/java/dev/senna/repository/UserRepository.java:26 | a string set inside a run of trimmable characters on both sides trims like the string itself |
| UserRepository.TrimIgnoresPadding | src/main/java/dev/senna/repository/UserRepository.java:26 | `trim(p + s + q) == trim(s)` when `p` and `q` are all trimmable |
| UserRepository.TrimIdempotent | src/main/java/dev/senna/repository/UserRepository.java:26 | trimming twice is trimming once |
| UserRepository.CountByUsername | src/main/java/dev/senna/repository/UserRepository.java:15 | the number of rows whose username is exactly this one (its multiplicity in the username column); hence bounded by the table size, and positive exactly when some row has it |
| UserRepository.ExistsByUsername | src/main/java/dev/senna/repository/UserRepository.java:14-16 | true exactly when a stored user has exactly this username (untrimmed) |
| UserRepository.CountByRole | src/main/java/dev/senna/repository/UserRepository.java:19 | the number of rows holding the role (its multiplicity in the role column); hence bounded by the table size, and positive exactly when some row holds it |
| UserRepository.ExistsByRole | src/main/java/dev/senna/repository/UserRepository.java:18-20 | true exactly when a stored user holds the role |
| UserRepository.IndexOfUsername | src/main/java/dev/senna/repository/UserRepository.java:26 | the first position holding the username, or none when no row holds it |
| UserRepository.FindByUsername | src/main/java/dev/senna/repository/UserRepository.java:22-27 | empty for a null or blank name; otherwise empty exactly when no user has the trimmed name, and any result is a stored user whose username is the trimmed name |
| UserRepository.FindByUsernameIgnoresPadding | src/main/java/dev/senna/repository/UserRepository.java:22-27 | surrounding whitespace in the presented name does not change the result |
| UserRepository.FindUserByUsername | src/main/java/dev/senna/repository/UserRepository.java:29-31 | null exactly when `findByUsername` is empty; otherwise the same user |
| ItemService.OfficerView | src/main/java/dev/senna/service/ItemService.java:150-164 | keeps the quantity, the status and the order id of a request, and drops the name, sale quantity, material and image |
| ItemService.AdminPatch | src/main/java/dev/senna/service/ItemService.java:166-196 | each field takes the request's value when it is non-null and keeps the stored one otherwise |
| ItemService.OfficerPatch | src/main/java/dev/senna/service/ItemService.java:150-164 | quantity and status take the request's value when non-null; name, sale quantity, material and image are kept |
| ItemService.OfficerPatchIsRestrictedAdminPatch | src/main/java/dev/senna/service/ItemService.java:150-196 | an officer's patch is the admin patch of the officer's part of the request, and it edits exactly when that part edits |
| ItemService.OfficerPatchKeepsOtherFields | src/main/java/dev/senna/service/ItemService.java:150-164 | an officer's patch keeps name, sale quantity, material and image, whatever the request holds |
| ItemService.AdminPatchFacts | src/main/java/dev/senna/service/ItemService.java:150-196 | a patch that sets nothing changes nothing; applying the same patch twice equals applying it once (both patches) |
| ItemService.ApplyOfficerUpdates | src/main/java/dev/senna/service/ItemService.java:150-164 | the item's fields become the officer patch of the old fields; the flag is true exactly when quantity or status was given; only those two fields may change |
| ItemService.ApplyAdminUpdates | src/main/java/dev/senna/service/ItemService.java:166-196 | every non-null request field replaces the stored one, and null fields are kept; the flag is true exactly when some field was given; the order link is untouched |
| ItemService.AddItem | src/main/java/dev/senna/service/ItemService.java:39-67 | fails with OrderNotFound exactly when a named order does not exist, and then stores nothing; otherwise appends exactly one new item with a fresh id, quantity = sale quantity, status IMPRESSO, name/material/image from the request, and the named order (or none) |
| ItemService.AssignOrder | src/main/java/dev/senna/service/ItemService.java:105-119 | OrderNotFound is checked before ItemNotFound; on success only that item's order link changes, to the found order; on failure nothing changes; unique ids are kept |
| ItemService.UpdateItem | src/main/java/dev/senna/service/ItemService.java:121-148 | ItemNotFound first, then OrderNotFound for the request's order id (checked, never assigned); ADMIN wins over OFFICER; anyone else gets Forbidden; a request with nothing the caller may set gives InvalidEditParameter with the item unchanged; since ids are unique, other items never change |
| ItemService.FindItemById | src/main/java/dev/senna/service/ItemService.java:69-75 | ItemNotFound exactly when no item has the id; otherwise a stored item with that id |
| ItemService.Line | src/main/java/dev/senna/service/ItemService.java:94-101 | a line carries the item's fields; its order id is null exactly when the item has no order, otherwise the order's id |
| ItemService.Lines | src/main/java/dev/senna/service/ItemService.java:93-101 | one line per item, in order |
| ItemService.ItemsInProduction | src/main/java/dev/senna/service/ItemService.java:79-90 | every row is a stored item in one of the six production statuses; every such item appears exactly as often as in the table, and no item more often |
| ItemService.ItemsWithStatus | src/main/java/dev/senna/repository/ItemRepository.java:13-15 | every row is a stored item with the status; every such item appears exactly as often as in the table, and no item more often |
| ItemService.ListProduction | src/main/java/dev/senna/service/ItemService.java:77-103 | line `k` is the line of production item `page*pageSize + k`; as many lines as there are production items from that index on, at most `pageSize`; every line has a production status |
| ItemService.ListProductionComplete | src/main/java/dev/senna/service/ItemService.java:77-103 | with a page as large as the table, every item in production is listed |
| ItemService.FindByStatus | src/main/java/dev/senna/service/ItemService.java:199-215 | a null status is rejected (and only then); otherwise one line per item with that status, line `k` being the line of the `k`-th such stored item; every line has the status and every such item is listed |
| ItemService.StatusLinesFacts | src/main/java/dev/senna/service/ItemService.java:204-214 | the selected items are stored and have the status, and the line of every stored item with the status is among the lines |
| UserService.CurrentUserRole | src/main/java/dev/senna/service/UserService.java:36-41 | Forbidden exactly when the caller holds none of the three roles; otherwise a held role that ranks highest (DEV > ADMIN > OFFICER) |
| UserService.MayCreate | src/main/java/dev/senna/service/UserService.java:55-64 | nobody creates a role ranked above their own; DEV may create every role, ADMIN exactly OFFICER, OFFICER nobody |
| UserService.CreatePermission | src/main/java/dev/senna/service/UserService.java:55-64 | allowed exactly when the caller's best role may create the target role; every refusal is Forbidden |
| UserService.CreatePermissionByRole | src/main/java/dev/senna/service/UserService.java:55-64 | DEV may create every role, a best role of ADMIN exactly OFFICER users, and otherwise nobody may |
| UserService.VerifyUsername | src/main/java/dev/senna/service/UserService.java:142-151 | IllegalArgument exactly for a null or blank name; UserAlreadyExists exactly when a non-blank name is taken (exact comparison); otherwise passes |
| UserService.CreateUserBySystem | src/main/java/dev/senna/service/UserService.java:43-51 | appends exactly one user with the name, the hashed password and the role, with no checks; user ids stay unique |
| UserService.AppendKeepsUnique | src/main/java/dev/senna/service/UserService.java:75 | adding a user with an unused id keeps ids unique |
| UserService.ReplaceKeepsUnique | src/main/java/dev/senna/service/UserService.java:124 | overwriting a row with the same id keeps ids unique |
| UserService.CreateUser | src/main/java/dev/senna/service/UserService.java:53-79 | the permission check comes before the username check; it succeeds exactly when both pass, and then appends exactly one user with the hashed password; on failure the table is unchanged |
| UserService.UserLines | src/main/java/dev/senna/service/UserService.java:88-92 | one line per user, in order: username and role display name |
| UserService.FindAll | src/main/java/dev/senna/service/UserService.java:81-93 | as many lines as the table has rows from `page*pageSize` on, at most `pageSize` |
| UserService.FindAllRows | src/main/java/dev/senna/service/UserService.java:81-93 | line `k` of a page is the user at row `page*pageSize + k` |
| UserService.FindUserById | src/main/java/dev/senna/service/UserService.java:95-106 | UserNotFound exactly when no user has the id; otherwise the username and role of a stored user with that id |
| UserService.UpdateUser | src/main/java/dev/senna/service/UserService.java:108-127 | UserNotFound for an unknown id, with nothing stored; the username check runs only when the name changes; on success that row gets the new name and hashed password and keeps id and role |
| UserService.RemoveAtFacts | src/main/java/dev/senna/service/UserService.java:138 | cutting one row out keeps ids unique and drops exactly the users with that row's id |
| UserService.DeleteUser | src/main/java/dev/senna/service/UserService.java:129-140 | UserNotFound exactly for an unknown id, with the table unchanged; otherwise exactly that user is removed and the others keep their order |
| JwtService.AccessTokenTtlSeconds | src/main/java/dev/senna/infra/JwtService.java:77-79 | 900 seconds |
| JwtService.NewToken | src/main/java/dev/senna/infra/JwtService.java:50-55 | belongs to the user, is not revoked, expires three days (259200 s) after now, and stores the hash of the raw string |
| JwtService.Redeemable | src/main/java/dev/senna/infra/JwtService.java:64-66 | a revoked token, a token expiring at or before now, and a token whose hash does not match the presented string are never redeemable |
| JwtService.GenerateAndStoreRefreshToken | src/main/java/dev/senna/infra/JwtService.java:45-59 | the raw string is two UUIDs joined by a dot; exactly that one token is appended |
| JwtService.FirstRedeemable | src/main/java/dev/senna/infra/JwtService.java:63-66 | the first position whose token is unrevoked, expires strictly after now, and matches; none exactly when no token qualifies |
| JwtService.Revoke | src/main/java/dev/senna/infra/JwtService.java:68 | the row becomes revoked and every other row is unchanged |
| JwtService.RotateRefreshToken | src/main/java/dev/senna/infra/JwtService.java:61-75 | no redeemable token: empty, with the table unchanged; otherwise exactly the first redeemable token is revoked and the result is the lookup of its owner (empty if the owner is gone, with the token still revoked) |
| JwtService.RedeemedTokenIsSpent | src/main/java/dev/senna/infra/JwtService.java:64-68 | after a rotation, presenting the same string again never redeems the same token |
| JwtService.FreshTokenRedeems | src/main/java/dev/senna/infra/JwtService.java:45-66 | a just-issued token is redeemed with its own raw string until it expires, when no earlier token qualifies |
| OrderRepository.WithStatus | src/main/java/dev/senna/repository/OrderRepository.java:18 | every row is a stored order with the status; every such order appears exactly as often as in the table, and no order more often |
| OrderRepository.ListOrdersInProduction | src/main/java/dev/senna/repository/OrderRepository.java:17-21 | row `k` is PRODUCAO order `page*pageSize + k` in table order; as many rows as there are such orders from that index on, at most `pageSize`; all stored and PRODUCAO |
| OrderRepository.Insert | src/main/java/dev/senna/repository/OrderRepository.java:25-26 | adds exactly the one order (as a multiset) |
| OrderRepository.SortOrders | src/main/java/dev/senna/repository/OrderRepository.java:25-28 | a permutation of the input |
| OrderRepository.InsertSorted | src/main/java/dev/senna/repository/OrderRepository.java:25-26 | inserting into a sorted sequence keeps it sorted |
| OrderRepository.SortOrdersSorted | src/main/java/dev/senna/repository/OrderRepository.java:25-26 | the result is sorted by the key |
| OrderRepository.SortOrdersDistinct | src/main/java/dev/senna/repository/OrderRepository.java:44 | sorting keeps ids distinct |
| OrderRepository.PageSorted | src/main/java/dev/senna/repository/OrderRepository.java:30 | a page of a sorted sequence is sorted |
| OrderRepository.FindLastSent | src/main/java/dev/senna/repository/OrderRepository.java:23-33 | page `page` of an arrangement of exactly the POSTADO orders (same multiset) sorted by delivery date descending, ties by id descending; at most `pageSize` stored POSTADO orders, themselves in that order |
| OrderRepository.LastSentFacts | src/main/java/dev/senna/repository/OrderRepository.java:23-33 | the page of the sorted posted orders is sorted, drawn from them, and a page of a sorted arrangement of exactly them |
| OrderRepository.FindByPostedDateBetween | src/main/java/dev/senna/repository/OrderRepository.java:35-37 | the orders whose posted date lies in the range, both ends included, each exactly as often as in the table; no posted date never matches |
| OrderRepository.CountByPostedDateBetween | src/main/java/dev/senna/repository/OrderRepository.java:39-41 | zero exactly when no order is posted in the range |
| OrderRepository.CountMatchesFind | src/main/java/dev/senna/repository/OrderRepository.java:35-41 | the count equals the length of the list for the same bounds |
| OrderRepository.PrefixHasLargest | src/main/java/dev/senna/repository/OrderRepository.java:43-45 | a prefix of a sequence sorted by id descending leaves out no larger id |
| OrderRepository.FirstPageIsPrefix | src/main/java/dev/senna/repository/OrderRepository.java:45 | `page(0, n)` is the first `min(n, len)` rows |
| OrderRepository.Top4Ordered | src/main/java/dev/senna/repository/OrderRepository.java:43-47 | the first four of the id-descending sort are in id order, strictly so when ids are distinct |
| OrderRepository.Top4Largest | src/main/java/dev/senna/repository/OrderRepository.java:43-47 | they are `min(4, n)` stored orders, and no order left out has a larger id than a listed one |
| OrderRepository.FindTop4ByIdDesc | src/main/java/dev/senna/repository/OrderRepository.java:43-47 | `min(4, n)` stored orders, ids non-increasing (strictly decreasing for distinct ids), and the largest ids present |
| OrderService.CreateOrder | src/main/java/dev/senna/service/OrderService.java:31-45 | exactly one fresh order is appended and returned, with a new id, PRODUCAO, not posted, the requested dates and the looked-up client (possibly none, with no error) |
| OrderService.Summaries | src/main/java/dev/senna/service/OrderService.java:53-60 | fails exactly when some order has no client; otherwise one summary per order mirroring dates, posted flag, client name and status |
| OrderService.ListOrders | src/main/java/dev/senna/service/OrderService.java:47-61 | as many summaries as the page has rows, at most `pageSize`; fails, with NullPointer, exactly when an order on the page has no client |
| OrderService.ListOrdersRows | src/main/java/dev/senna/service/OrderService.java:47-61 | summary `k` mirrors table row `page*pageSize + k` |
| OrderService.ListOrdersInProduction | src/main/java/dev/senna/service/OrderService.java:63-74 | fails, with NullPointer, exactly when an order of the repository page has no client; otherwise summary `k` mirrors row `k` of that page (dates, posted flag, client name, PRODUCAO) |
| OrderService.ItemResponses | src/main/java/dev/senna/service/OrderService.java:83-91 | one response per item, in list order, mirroring id, name, quantities, material, image and status |
| OrderService.ItemsOfOrder | src/main/java/dev/senna/model/entity/OrderEntity.java:27-33 | the items of an order are stored items whose order is that order |
| OrderService.ItemsOfOrderExact | src/main/java/dev/senna/model/entity/OrderEntity.java:27-33 | every stored item whose order is that order is listed, exactly as often as in the item table |
| OrderService.ProductionOrders | src/main/java/dev/senna/service/OrderService.java:79-92 | fails exactly when some order has no client; otherwise one entry per order with client name, status and the responses for the items that reference it |
| OrderService.ListProduction | src/main/java/dev/senna/service/OrderService.java:76-93 | fails, with NullPointer, exactly when a PRODUCAO order of the page has no client; otherwise entry `k` carries row `k`'s client name, PRODUCAO, and the responses for exactly the items referencing that order |
| AnalyticsService.DayOfWeek | src/main/java/dev/senna/service/AnalyticsService.java:57 | the ISO weekday, 1 (Monday) to 7 (Sunday), anchored so that 1970-01-05 (day 4) is a Monday: weekday minus one is the day count since then modulo 7 |
| AnalyticsService.DayOfWeekShift | src/main/java/dev/senna/service/AnalyticsService.java:57-58 | moving within a week moves the weekday by as many days |
| AnalyticsService.DayOfWeekPeriodic | src/main/java/dev/senna/service/AnalyticsService.java:57-58 | the weekday repeats every seven days |
| AnalyticsService.WithMonday | src/main/java/dev/senna/service/AnalyticsService.java:57 | the Monday among the day and the six days before it |
| AnalyticsService.WithSunday | src/main/java/dev/senna/service/AnalyticsService.java:58 | the Sunday among the day and the six days after it, six days after its Monday |
| AnalyticsService.LastWeekStart | src/main/java/dev/senna/service/AnalyticsService.java:57 | a Monday between thirteen and seven days before today |
| AnalyticsService.LastWeekEnd | src/main/java/dev/senna/service/AnalyticsService.java:58 | the Sunday six days after the start, and the day before the Monday of today's week, so today is outside the window |
| AnalyticsService.GetOrdersShippedLastWeek | src/main/java/dev/senna/service/AnalyticsService.java:54-61 | the orders posted in last week's window, both ends included, each exactly as often as in the table |
| AnalyticsService.CountOrdersPostedLastWeek | src/main/java/dev/senna/service/AnalyticsService.java:63-70 | equals the number of orders `getOrdersShippedLastWeek` lists for the same day |
| AnalyticsService.GetDashboard | src/main/java/dev/senna/service/AnalyticsService.java:32-52 | the counts are bounded by their tables; the weekly figure is the size of last week's list |
| AnalyticsService.DisjointStatusCounts | src/main/java/dev/senna/service/AnalyticsService.java:42-44 | orders in production plus orders waiting for shipping never exceed the number of orders |
| AnalyticsService.StatusCountsBounded | src/main/java/dev/senna/service/AnalyticsService.java:42-44 | the filters for two different statuses together select at most every order |

## Left out

- Controllers, HTTP status mapping, `@RolesAllowed`, and request validation
  annotations (`@Valid`, `@NotBlank`) are not modelled. The caller's roles arrive
  as a set.
- Signing of access tokens (`generateAccessToken`) is not modelled. It is an
  external JWT library.
- BCrypt hashing and matching are uninterpreted parameters (`hash`, `matches`), and
  generated UUIDs and fresh user ids are parameters. A fresh user id is a
  precondition: no stored user has the id. Item and order ids are drawn from the
  database's identity counters `nextItemId` and `nextOrderId`.
- Persistence is not modelled: transactions, cascade and orphan removal, lazy
  loading, query strings, and `persist` calls on objects that are already managed.
  Tables are sequences in insertion order.
- Java's `Instant.now()` is called on every iteration of `rotateRefreshToken`. The
  model reads the clock once per call. The clock's sub-second part is not modelled.
- `getOrdersShippedLastWeek` and `countOrdersPostedLastWeek` each read
  `LocalDate.now()`, and `getDashboard` reads it through
  `countOrdersPostedLastWeek`. The model passes today as a parameter.
- Users, refresh tokens and clients are value rows. Java's in-place setters on
  them, such as `t.revoked = true` or the `updateUser` setters, become replacement
  of a row in the table.
- A lookup with a null id is modelled as "not found". Hibernate would raise
  `IllegalArgumentException` instead.
- A new `OrderEntity` has a null item list. The model starts from an empty list.
- `AddItemRequestDto` declares `material` as a `Material` enum, while
  `ItemEntity` stores a String and its setter takes one, as does
  `UpdateItemRequestDto`. The code as written does not reconcile the two. The
  model stores strings and the add request carries the material's name.
- `ItemStatus.java` is not part of this model. The services use six constants
  (IMPRESSO to ACABAMENTO). A test also uses EMBALADO, which makes seven in the
  model.
- `UserEntity.role` is declared as a String while every caller passes a
  `UserRole`. The model uses the enumeration. Likewise `OrderEntity` declares no
  `posted` field, although `setPosted`/`isPosted` are called, so the model gives
  the order a boolean `posted` field.
- The database constraints (a not-null client on orders, unique usernames) are not
  enforced. An order without a client is modelled, and listing it fails with
  NullPointer as the Java code would.
- Negative page numbers and page sizes are not modelled (`nat`). Panache refuses
  a page size of zero with an exception. In the model, a page of size zero is
  empty.
- Among orders with equal sort keys, the database's tie order is unspecified. The
  model sorts stably by insertion. Likewise "first result" in `findByUsername` is
  the first row in table order.
- Order status transitions and an order update are not modelled. No
  implementation of them exists in `OrderService`.
- `ClientService` and `DevUserCreator` are not modelled. The first is a plain
  insert. The second is start-up wiring.
- Three tests disagree with the code, and the code is modelled:
  - the test expecting a `persist` in `updateItem`;
  - the test expecting a client duplicate check;
  - the test expecting `ClientNotFound` from `createOrder`.
- AnalyticsService.GetDashboard: the two order counts and the item count are stated
  only as bounded by their tables, and, via `DisjointStatusCounts`, as jointly
  bounded. Their exact meaning follows from the filters `WithStatus` and
  `ItemsInProduction`, whose contracts give every matching row's multiplicity.
- OrderService.ListProduction reads each order's items from the item table, as
  the `mappedBy = "order"` collection is loaded. It does not read the entity's
  in-memory `items` list, which no service fills. Within one order, the items
  come in item-table order. Hibernate fixes no order for that collection.
