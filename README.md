# Inventory backend — a Dafny model

This project models the logic of a small Django inventory backend. The backend has users with a role (admin, manager, staff), manager and staff profiles, products with a stock level and two thresholds, and an audit log of stock movements. The model covers:

- **Stock status.** `check_stock` sorts a product into `low`, `normal` or `high`. The low test comes first.
- **Stock update.** The `update_stock` action adds stock, removes it with a clamp at zero, or leaves it alone. It saves the product and then writes one log entry, which records the requested amount.
- **Permissions.** The three permission classes form the hierarchy admin ⊒ manager ⊒ staff.
- **Store-level rules.**
  - The unique fields: username, manager email, product sku.
  - The one-to-one profiles.
  - The CASCADE and SET_NULL policies of the foreign keys.
  - Registration with its role profile.
  - The `update_user_role` management command.
  - Activation toggling.
- **Read-only reports.**
  - A product's logs and a staff member's logs.
  - A manager's staff and product counts.
  - The low-stock statistics.
  - The inventory report, with counts per action type and added/removed sums per product name.

Modules:

- `Models` (models.dfy): the entities as datatypes, `CheckStock`, the store invariant `Consistent` (unique fields, profile links, foreign keys), and the row transformations that the `on_delete` policies perform.
- `Permissions` (permissions.dfy): `IsAdminUser`, `IsManagerUser` and `IsStaffUser` as pure functions of the caller. The reference definition is `Authorized` on role levels.
- `Grouping` (grouping.dfy): the database's `values(key).annotate(Sum(w))`. It is a fold that keeps one bucket per distinct key, proved equal to the plain per-key sum.
- `Reports` (reports.dfy): the read-only views as recursive filters and folds.
- `Inventory` (inventory.dfy): class `Store`, which holds the tables as maps from primary key to row, the log as a sequence, and the next primary key of each table. Its methods perform the writes; each is proved against value-level functions and keeps `Valid()`. `RestockScenario` and `AdminSelfRegistration` are worked client scenarios whose answers follow from the contracts.

Where the code does something a reader might not expect, the model follows the code:

- **Registration is not atomic.** A username clash fails validation before any write. The user row is saved before its profile, however. So a manager profile that breaks the unique manager email leaves the user saved without a profile (`ProfileRejected`).
- **`update_stock` is not atomic.** It saves the product before it reads `request.user.staff_profile`. A manager-or-admin caller without a staff profile therefore gets an error, with the new quantity already stored and no log written (`NoStaffProfile`).
- **Quantities can go negative.** Nothing keeps a product's quantity at or above zero. `add` with a negative amount can make it negative, and a product can be created with any quantity. `NewQuantity` states exactly when the result is non-negative.
- **Logs have no order.** The log lists declare no ordering; only the admin list sorts by `-date`. The model keeps logs in insertion order.
- **Anyone can register as an admin.** Registration is open to anonymous callers (`AllowAny`) and `role` is a writable field of the registration serializer. So a new account with role admin passes `IsAdminUser`, as `AdminSelfRegistration` shows.
- **`IsStaffUser` admits every authenticated caller.** Every role is listed in it, and the role field is restricted to the three choices.

External effects become parameters:

- **Password hashing** (`set_password`) is the `hasher` function parameter. The user row holds only `hasher(password)`.
- **The clock** (`timezone.now`) is the `now` parameter of `UpdateStock`.
- **The requesting user** is a `Requester`: anonymous, or a user id. Authentication is taken as given.

## Model

| member | source | states |
|---|---|---|
| Models.NewProduct | inventory/models.py:37-39 | a product created without quantity or thresholds has quantity 0, thresholds 10 and 100, and is therefore low on stock |
| Models.CheckStock | inventory/models.py:54-62 | `Low` exactly when quantity ≤ low threshold, whatever the high threshold; `High` exactly when low < quantity and quantity ≥ high; `Normal` exactly when low < quantity < high |
| Models.ProductsDetached | inventory/models.py:45 | SET_NULL on `Product.manager`: every product is kept, a product of a deleted manager gets a null manager, only the manager field can change, and products of other managers are untouched |
| Models.StaffDetached | inventory/models.py:69 | SET_NULL on `Staff.manager`: every staff profile is kept, a profile of a deleted manager gets a null manager, only the manager field changes, others are untouched |
| Models.LogsUnattributed | inventory/models.py:90 | SET_NULL on `InventoryLog.performed_by`: every log is kept in order, a log of a deleted staff profile gets a null performer, only the performer can change |
| Models.Consistent | inventory/models.py:24-90 | the store invariant: unique usernames, manager emails and skus; each profile links to an existing user and no user has two profiles of one kind; every non-null manager reference names an existing manager; every log names an existing product and, when it has one, an existing staff performer |
| Models.LogsWithoutProduct | inventory/models.py:86 | CASCADE on `InventoryLog.product`: a log survives exactly when it belongs to another product |
| Permissions.RoleLevel | inventory/models.py:11-16 | the three role choices ranked staff < manager < admin; the admin rank only for admin, manager rank or above exactly for non-staff |
| Permissions.IsAdminUser | inventory/permissions.py:8-13 | equals `Authorized` at admin level; unauthenticated callers fail; authenticated superusers pass; for non-superusers it holds exactly for role admin; it implies `IsManagerUser` |
| Permissions.IsManagerUser | inventory/permissions.py:19-23 | equals `Authorized` at manager level; unauthenticated callers fail; superusers pass; for non-superusers exactly admin and manager pass and staff is rejected; it implies `IsStaffUser` |
| Permissions.IsStaffUser | inventory/permissions.py:29-33 | equals `Authorized` at staff level, and holds exactly for authenticated callers |
| Grouping.Group | inventory/views.py:201-217 | the grouped buckets have distinct keys, exactly the keys of the entries, each bucket's total is the sum of that key's weights, and the totals add up to the sum of all weights |
| Reports.ProductLogs | inventory/views.py:141 | `product.inventory_logs.all()`: a log is listed exactly when it is in the log and belongs to the product |
| Reports.StaffLogs | inventory/views.py:171 | `filter(performed_by=staff)`: a log is listed exactly when it names that staff profile as performer |
| Reports.CascadePartitionsLogs | inventory/models.py:86 | deleting a product removes exactly that product's log list: the removed and the kept logs together are the old log, as a multiset and by count |
| Reports.ProductLogsAppend | inventory/views.py:123-128 | the log that `update_stock` appends extends its own product's list by exactly that entry and no other product's list |
| Reports.StaffLogsAppend | inventory/views.py:123-128 | the appended log extends its performer's list by exactly that entry and no other staff member's list |
| Reports.ManagedStaff | inventory/views.py:61 | a staff profile is `manager.staff` exactly when its manager is that manager |
| Reports.ManagedProducts | inventory/views.py:71 | a product is `manager.products` exactly when its manager is that manager |
| Reports.ManagerReportOf | inventory/views.py:80-85 | an unknown manager is not found; otherwise `total_staff` and `total_products` (equally the serializer's `staff_count` and `product_count`) are the numbers of staff profiles and products naming the manager |
| Reports.DetachClearsManagedSets | inventory/models.py:45-69 | after managers are deleted, each of them manages no staff and no product, and every other manager manages exactly what it did |
| Reports.StaffProducts | inventory/views.py:180-181 | `staff.manager.products`: an unknown staff profile is not found; a staff profile without a manager gives the `NoManager` error; otherwise exactly the products of its manager |
| Reports.LowStock | inventory/views.py:231-233 | `quantity__lte=F('low_threshold')` selects exactly the products `check_stock` labels low |
| Reports.StatisticsOf | inventory/views.py:230-239 | the intended statistics: number of products, number of logs, and exactly the low-stock products |
| Reports.StatisticsAsWritten | inventory/views.py:231-233 | as written, the statistics view fails with a NameError on `models` for every input |
| Reports.ActionEntriesCount | inventory/views.py:201 | the counting entries sum, per action type, to the number of logs with that action type, and in all to the number of logs |
| Reports.LogsByAction | inventory/views.py:201 | `logs_by_action`: one bucket per action type present in the log, each counting the logs of that action type; the counts add up to `total_logs` |
| Reports.MovementEntriesSum | inventory/views.py:204-217 | a movement column's grouped sum for a product name is the sum of `quantity_change` over the logs of that name with that action type; other action types count 0 |
| Reports.ProductMovement | inventory/views.py:204-217 | `product_movement`: one row per distinct name among the logged products, and its `total_added`/`total_removed` are the sums of `quantity_change` over its `add`/`remove` logs |
| Reports.InventoryReportOf | inventory/views.py:194-223 | the intended report: `total_logs` is the log count and equals the sum of the per-action counts; `logs_by_action` has one bucket per action type present, counting its logs; `product_movement` has exactly one row per logged product name, with its add and remove sums |
| Reports.InventoryReportAsWritten | inventory/views.py:200-201 | as written, the report fails with a NameError on `models` for every input |
| Inventory.StaffProfileOf | inventory/views.py:127 | `request.user.staff_profile`: a staff profile of that user when there is one, and none exactly when no staff profile links to the user |
| Inventory.AmountOrDefault | inventory/views.py:113 | the requested amount, or 0 when none is sent |
| Inventory.ActionOrDefault | inventory/views.py:114 | the requested action, or `adjust` when none is sent |
| Inventory.NewQuantity | inventory/views.py:116-119 | `add` adds the amount; `remove` gives max(0, quantity − amount), which is never negative and is 0 when the amount reaches the quantity; any other action keeps the quantity; the result is non-negative exactly when an `add` does not go below zero and any other action starts from a non-negative quantity |
| Inventory.StockAfter | inventory/views.py:112-120 | the saved product differs from the old one in its quantity only, which is `NewQuantity` |
| Inventory.StockLog | inventory/views.py:123-128 | the new log names the product, the action type as sent, the requested amount (not the clamped change), the clock reading and the caller's staff profile |
| Inventory.ReadingOf | inventory/views.py:130-133 | the answer carries the stored quantity and the status `check_stock` gives it (the serializer's `stock_status` is the same function) |
| Inventory.Toggled | inventory/views.py:25-27 | `is_active` is negated and no other field of the user changes |
| Inventory.ToggledTwice | inventory/views.py:26 | toggling twice restores the user row |
| Inventory.NewUser | inventory/serializers.py:25-28 | the created user carries the submitted username, email and department; the password reaches the row only through the hasher; the role defaults to staff; the account is active |
| Inventory.UsersWithRole | inventory/management/commands/update_user_role.py:16-18 | the user called `username` gets the role and keeps every other field; every other user is unchanged; with no such user nothing changes |
| Inventory.WithRoleAt | inventory/management/commands/update_user_role.py:16-18 | with unique usernames, the command's result is the one-row update of the user the lookup finds |
| Inventory.UsersWithRoleIdempotent | inventory/management/commands/update_user_role.py:16-18 | running the role command twice with the same arguments gives the users of running it once |
| Inventory.ProfilesAtMostOne | inventory/models.py:24-68 | in a consistent store each user has at most one manager profile and at most one staff profile, as the one-to-one fields demand |
| Inventory.DeleteManagerKeepsConsistent | inventory/models.py:45-69 | deleting managers with SET_NULL on their products and staff keeps unique fields, profile links and foreign keys valid |
| Inventory.DeleteStaffKeepsConsistent | inventory/models.py:90 | deleting staff profiles with SET_NULL on the logs keeps the store consistent |
| Inventory.DeleteProductKeepsConsistent | inventory/models.py:86 | deleting a product with CASCADE on its logs keeps the store consistent |
| Inventory.DeleteUserKeepsConsistent | inventory/models.py:24-68 | deleting a user with its manager and staff profiles, and their own SET_NULL effects, keeps the store consistent |
| Inventory.UpdateUserKeepsConsistent | inventory/views.py:25-27 | saving a user row with an unchanged username keeps the store consistent |
| Inventory.UpdateProductKeepsConsistent | inventory/views.py:117-120 | saving a product with unchanged sku and manager keeps the store consistent |
| Inventory.AppendLogKeepsConsistent | inventory/views.py:123-128 | appending a log for an existing product and staff profile keeps the store consistent |
| Inventory.AddUserKeepsConsistent | inventory/serializers.py:26-28 | inserting a user under a fresh key with an unused username keeps the store consistent |
| Inventory.AddManagerKeepsConsistent | inventory/serializers.py:33-37 | inserting a manager profile for a user without one, with an unused email, keeps the store consistent |
| Inventory.AddStaffKeepsConsistent | inventory/serializers.py:39-43 | inserting a staff profile for a user without one keeps the store consistent |
| Inventory.AddProductKeepsConsistent | inventory/models.py:42-45 | inserting a product with an unused sku and an existing or no manager keeps the store consistent |
| Inventory.Store.SaveProduct | inventory/views.py:120 | `product.save()`: the product row is replaced, nothing else changes, and the store stays valid |
| Inventory.Store.AppendLog | inventory/views.py:123-128 | `InventoryLog.objects.create`: the log gets exactly that entry at its end, nothing else changes, and the store stays valid |
| Inventory.Store.InsertUser | inventory/serializers.py:26-28 | the user row is saved under the next user key, which was free; only the users and that counter change |
| Inventory.Store.InsertManager | inventory/serializers.py:33-37 | the manager profile is saved under the next manager key, which was free; only the managers and that counter change |
| Inventory.Store.InsertStaff | inventory/serializers.py:39-43 | the staff profile is saved under the next staff key, which was free; only the staff table and that counter change |
| Inventory.Store.FindStaffProfile | inventory/views.py:127 | the lookup of `request.user.staff_profile` returns `StaffProfileOf` of the staff table |
| Inventory.Store.Stock | inventory/views.py:96-105 | behind `IsManagerUser`: unauthorized, or not found, or the product's quantity with its `check_stock` status, exactly in those cases |
| Inventory.Store.UpdateStock | inventory/views.py:107-133 | behind `IsManagerUser`: unauthorized or not found with nothing written; otherwise the product becomes `StockAfter`; without a staff profile the error comes back with the quantity stored and no log; otherwise exactly `StockLog` is appended and the answer equals `Stock` of the updated store; users, profiles and the other products are unchanged and the store stays valid |
| Inventory.Store.ToggleActivation | inventory/views.py:20-31 | behind `IsAdminUser`: unauthorized or not found with nothing written; otherwise the user becomes `Toggled` and the new flag is returned; nothing else changes |
| Inventory.Store.Register | inventory/serializers.py:24-45 | a taken username writes nothing; otherwise the user row `NewUser` is saved under a fresh key; role manager adds one manager profile with the user's email and the department or '' (or, when the email is taken, the profile is refused and the user stays); role staff adds one staff profile 'Staff Member', 'Day', no manager; any other role adds no profile; each key counter moves by one exactly when its table gets a row; products and logs are unchanged |
| Inventory.Store.SetUserRole | inventory/management/commands/update_user_role.py:11-21 | reports found exactly when a user has that username; the users become `UsersWithRole`; nothing else changes |
| Inventory.Store.AddProduct | inventory/models.py:42-45 | a taken sku is a conflict and an unknown manager is not found, both with nothing written; otherwise the product is inserted under a fresh key |
| Inventory.Store.AddManager | inventory/models.py:24-25 | an unknown user is not found; a user that already has a manager profile, or a taken email, is a conflict; otherwise the profile is inserted under a fresh key |
| Inventory.Store.DeleteManager | inventory/models.py:45-69 | the manager row goes; its products and staff are kept with `ProductsDetached`/`StaffDetached`; users and logs are unchanged |
| Inventory.Store.DeleteProduct | inventory/models.py:86 | the product goes and the logs become `LogsWithoutProduct`; everything else is unchanged |
| Inventory.Store.DeleteStaff | inventory/models.py:90 | the staff profile goes and the logs become `LogsUnattributed`; everything else is unchanged |
| Inventory.Store.DeleteUser | inventory/models.py:24-68 | the user goes with its manager and staff profiles; the deleted manager's products and staff are detached and the deleted staff profile's logs lose their performer |

## Left out

- HTTP request parsing, `Response` shapes, serializer field lists and routing (`urls.py`) are left out. `request.data.get` becomes an optional integer amount and an optional action string.
- The admin-site configuration (`admin.py`) has no behaviour and is left out.
- Password hashing, the clock and authentication are opaque. They come in as the `hasher` and `now` parameters and the `Requester`, and `is_active` is not consulted on sign-in.
- `price` (a fixed-point decimal) and the `created_at`/`updated_at` timestamps carry no logic and are not modelled.
- Concurrency is not modelled. Operations run one at a time, so the lost update the unlocked read-modify-write of `update_stock` allows is not captured.
- Integer fields are unbounded here. The database's 32-bit range for `IntegerField` is not checked.
- The serializer's other field validation is not modelled: the username character validator, the email format check and the non-blank password. `Register` accepts inputs that the serializer rejects with a 400 before any write.
- The `max_length` limits of the character fields are not checked. For example, on a database that enforces them, an `action_type` longer than 10 characters would make the log insert fail after the product is saved.
- The barcode string and the command's stdout messages are plain formatting and are left out.
- Only the role-gated paths the model names are modelled. The permission gates of the report and list views, and the generic create/update/delete endpoints of each viewset, are not modelled. The inserts and deletes are modelled as the store methods above.
- Inventory.Store.Register: the email is taken as always submitted, and an explicit null department for a manager (which the database would refuse) is not modelled. The role is one of the three choices, as serializer validation assures.
- The role argument of the role command is a `Role`, so its command-line restriction to the three choices holds by typing.
- Reports.ProductMovement, Reports.LogsByAction: the database returns groups in no particular order. The model's buckets are ordered by first appearance in the log, and no contract depends on that order.

## Findings

| source | as written | input that shows it | evidently intended | confidence | as-written member | corrected member |
|---|---|---|---|---|---|---|
| inventory/views.py:201-217 | `models.Count`, `models.Sum`, `models.Case`, `models.When` and `models.F` name a module the views file never imports, so the report raises a NameError | any call of the inventory report, for example with an empty log | counts per action type and added/removed sums per product name, aggregated by the database | not executed | Reports.InventoryReportAsWritten | Reports.InventoryReportOf |
| inventory/views.py:231-233 | `models.F('low_threshold')` names the same unimported module, so the statistics view raises a NameError | any call of the statistics view, for example with no products | the number of products and logs, and the products at or below their low threshold | not executed | Reports.StatisticsAsWritten | Reports.StatisticsOf |
