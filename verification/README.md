# MRP back office: purchase orders, replenishment and scheduling in Dafny

This project models the back office of a small MRP (material requirements
planning) system. The model covers:

- the catalogue of suppliers (*fornecedores*), materials (*materiais*),
  products (*produtos*) and their bills of materials (*produto_materiais*);
- purchase orders (*pedidos*) with their lines (*pedido_itens*), and
  notifications (*notificacoes*) to users;
- the replenishment engine. It takes the materials at or below their
  minimum stock, groups them by supplier, plans a quantity for each, and
  creates one automatic order per supplier in a transaction;
- the shared order-number sequencer `PED-<year>-<sequence>`;
- the status update of an order, and the overdue and pending order lists;
- the two daily jobs, stock check at 08:00 and deadline check at 09:00,
  and their start/stop switch.

The database is a value of type `Model.Store`, with one sequence per table in
insertion order. Each route or service is a function or method from a store
(and the request) to the store after it and the answer (`Model.Reply`).
Three kinds of value come in as parameters:

- the wall clock: the day number `now`/`today` and the calendar `year`;
- generated uuids: `id`, `orderId` and `orderIds(k)`;
- the database's refusals: `refused`, the ordinal of the write the database
  refuses, if any.

Money, stock and quantities are exact reals. JavaScript truthiness on
nullable texts (`!x`, `x && ...`) is `Planner.Truthy`: NULL and the empty
text are falsy.

Modules, one per file:

| file | module | models |
|---|---|---|
| wrappers.dfy | Wrappers | `Option` and `Result` |
| text.dfy | Text | `toString`, `padStart`, `Number()`, `split` and the character order of texts |
| sequencer.dfy | Sequencer | the order-number sequencer, as written and corrected |
| lists.dfy | Lists | `WHERE` as a filter, `ORDER BY` as a sort |
| model.dfy | Model | the records, the store, the error answers |
| order_writer.dfy | OrderWriter | transactional creation of automatic and manual orders |
| planner.dfy | Planner | snapshot, quantity planner, grouping and the generation run |
| orders.dfy | Orders | status update, overdue and pending lists |
| scheduler.dfy | Scheduler | the two jobs and their switch |
| suppliers.dfy | Suppliers | supplier lookup, creation, deletion |
| products.dfy | Products | bill-of-materials rows, product creation and deletion |
| materials.dfy | Materials | material lookup, creation, deletion, the low-stock list and the `GET` route order |

## Model

| member | source | states |
|---|---|---|
| Text.PadStartShape | server/services/pedidos.ts:66 | the padded text keeps the original as its suffix, and every added character is '0' |
| Text.NumberOfPadded | server/services/pedidos.ts:64-66 | `Number()` of a zero-padded decimal gives back the number, so parsing undoes formatting |
| Text.SplitLeadingField | server/services/pedidos.ts:64 | a leading field without the separator splits off as the first element of `split('-')` |
| Text.LexDigitsIsNumeric | server/services/pedidos.ts:60 | for digit texts of equal length, the character order the database sorts by coincides with numeric order |
| Sequencer.LastOfYearIsGreatest | server/services/pedidos.ts:59-62 | `ORDER BY numero_pedido DESC LIMIT 1` over the year's pattern finds nothing exactly when no number has the year's prefix; otherwise it finds a number of the year that is lexicographically greatest among them |
| Sequencer.SequenceOfOrderNumber | server/services/pedidos.ts:63-66 | reading the third `-` field of a formatted number gives back its sequence |
| Sequencer.OrderNumberInjective | server/services/pedidos.ts:66 | two different sequences of one year never format to the same number |
| Sequencer.OrderNumberLexOrder | server/services/pedidos.ts:60 | up to sequence 9999, the text order of a year's numbers is the numeric order of their sequences (both directions) |
| Sequencer.AsWrittenRepeatsAfter9999 | server/services/pedidos.ts:59-66 | with PED-y-9999 and PED-y-10000 stored, the code as written issues PED-y-10000 again |
| Sequencer.AsWrittenAfterMalformed | server/services/pedidos.ts:63-66 | when the year's last number has a sequence field that is not digits, the code as written issues "PED-y-0NaN" (NaN plus one, padded to four) |
| Sequencer.AsWrittenAgreesBelow10000 | server/routes/pedidos.ts:84-92 | while every number of the year is well formed with a sequence up to 9999, the code as written issues the same number as the corrected sequencer |
| Sequencer.LastOfYearHasMaxSequence | server/services/pedidos.ts:59-65 | under the same condition, the lexicographically last number carries the numerically greatest sequence |
| Sequencer.NextNumber | server/services/pedidos.ts:58-66 | the corrected sequencer issues a number that no stored order holds and that carries the year's prefix, with a sequence of at least 1 above every sequence of that year |
| Sequencer.FirstOfYear | server/services/pedidos.ts:63-65 | a year without numbers starts at sequence 1, whatever other years hold |
| Sequencer.OtherYearsDoNotCount | server/services/pedidos.ts:60-61 | a number issued in one year does not move the sequence of another (the `LIKE 'PED-<year>-%'` filter) |
| OrderWriter.HeaderTotalIsSumOfLines | server/services/pedidos.ts:69-99 | the header total (the `reduce`) equals the sum of the line totals stored in the item rows |
| OrderWriter.OrderWritesEffect | server/services/pedidos.ts:75-117 | committing the creation writes appends exactly the header, the item rows and the notifications, and changes nothing else |
| OrderWriter.RunTransaction | server/services/pedidos.ts:119-124 | a transaction fails exactly when one of its writes is refused; then the store is as before BEGIN, otherwise every write took effect |
| OrderWriter.AutomaticOrder | server/services/pedidos.ts:48-128 | fails, leaving the store as it was, exactly when one of its writes (header, one per line, notification) is refused; otherwise appends one pending automatic header numbered by the corrected sequencer (so a number not yet stored), the lines' total, delivery after the supplier's lead time (NULL without one), the item rows, and one warning to the first buyer, keeping order numbers unique |
| OrderWriter.AutomaticOrderNumber | server/services/pedidos.ts:57-66 | while every number of the year is well formed with a sequence up to 9999, the automatic order's number is the one the code's own rule (the lexicographically last number of the year, plus one) issues |
| OrderWriter.WriterDivergesAfter9999 | server/services/pedidos.ts:59-66 | with PED-y-9999 and PED-y-10000 stored, the code's rule issues a number already stored, while the writer's order gets a number not yet stored |
| OrderWriter.AppendFreshKeepsUnique | server/services/pedidos.ts:75-82 | inserting an order whose number is not yet stored keeps numbers unique |
| OrderWriter.ManualOrder | server/routes/pedidos.ts:75-150 | the same transaction without a notification: the requested supplier, delivery date and notes, the authenticated user, the corrected sequencer's number, status pending, the column default as type; all or nothing. The answer is the joined read-back: any row it holds is a stored order with the new id whose supplier and user exist; for a new id it is present exactly when both exist, and then it is the inserted header |
| OrderWriter.ReadBackFindsHeader | server/routes/pedidos.ts:130-142 | after inserting a header with a new id, the read-back through both INNER JOINs finds that header exactly when its supplier and its user exist |
| OrderWriter.ManualOrderWithoutItems | server/routes/pedidos.ts:95-126 | an empty line list is accepted: an order with total 0 and no item rows |
| OrderWriter.BothPathsShareTheSequencer | server/routes/pedidos.ts:84-92 | the manual and the automatic path issue the same number from the same store and year |
| Planner.Joined | server/services/pedidos.ts:34-37 | the LEFT JOIN's `f.id AS fornecedor_id`: a material keeps its supplier only when that supplier exists, with that supplier's lead time |
| Planner.LowStockOf | server/services/pedidos.ts:34-39 | the snapshot holds exactly the materials at or below their minimum, each joined with its supplier |
| Planner.LowStockIsFilter | server/services/pedidos.ts:34-39 | the snapshot is the materials table filtered by stock at or below minimum, in table order, each row joined with its supplier |
| Planner.LowStock | server/services/pedidos.ts:32-46 | the snapshot holds a material exactly when its stock is at or below its minimum (non-strict), with or without a supplier |
| Planner.Ceil | server/services/pedidos.ts:155 | `Math.ceil`: the least integer not below the value |
| Planner.PlanQuantity | server/services/pedidos.ts:150-155 | the planned quantity refills to the maximum stock and covers the need plus 10%, and it is the least whole number that does both |
| Planner.PlannerExamples | server/services/pedidos.ts:150-155 | stock 5, maximum 50 and no need give 45; a need of 100 gives 110; stock above its maximum with no need gives 0 |
| Planner.NeededFor | server/services/pedidos.ts:135-137 | `COALESCE(SUM(...), 0)`: a material with no bill-of-materials row needs 0 |
| Planner.NeededForAppend | server/services/pedidos.ts:135-137 | a new bill-of-materials row adds its quantity to its own material's need and to no other |
| Planner.QuantityFor | server/services/pedidos.ts:130-160 | an unknown material plans 0; a known one plans the quantity of `PlanQuantity` over its stock, maximum and total need |
| Planner.GroupBySupplier | server/services/pedidos.ts:168-177 | one group per distinct truthy supplier; each group holds exactly that supplier's materials in snapshot order, is non-empty, and every keyed shortage is in one |
| Planner.GroupBySupplierOrder | server/services/pedidos.ts:168-181 | the groups come in the order their suppliers first appear in the snapshot, which is the order `Object.entries` gives back for these keys, so the orders are created in that order |
| Planner.AddToGroupsKeepsOrder | server/services/pedidos.ts:171-175 | one step of the `reduce` keeps the groups in first-appearance order: a new supplier opens the last group |
| Planner.AddToGroupsKeepsGrouping | server/services/pedidos.ts:171-175 | one step of the `reduce` turns a grouping of a prefix into a grouping of the prefix plus one shortage |
| Planner.NoGroupWithoutSupplier | server/services/pedidos.ts:169 | no group has the empty supplier id: materials without supplier are never ordered |
| Planner.PlaceGroupOrder | server/services/pedidos.ts:182-204 | fails, with nothing written, exactly when one of the group's writes is refused; otherwise appends one pending automatic order for the group's supplier and the buyer, with the group's total, the corrected sequencer's number, today's date and the delivery date the supplier's lead time gives, one item row per group line with its planned quantity, and one warning to the first buyer naming that number; it answers the order's id and number and only appends to the order tables |
| Planner.CreateForGroups | server/services/pedidos.ts:181-205 | without a truthy buyer nothing is written; otherwise group k becomes new order k, in group order: a pending automatic order for the group's supplier and the buyer, with the group's total, today's date and the supplier's expected delivery. The first refused transaction stops the loop with an error and keeps the earlier orders. Each new order is numbered by the corrected sequencer over the orders before it. The item rows are exactly the committed groups' lines, group after group, and the notifications exactly one buyer warning per new order. Other tables and old rows are untouched, and the result lists each new order's id and number, in order |
| Planner.GenerateOrders | server/services/pedidos.ts:162-212 | the groups are the grouping of the snapshot. When the run succeeds and a buyer exists, every low-stock material whose supplier exists and is truthy gets a new order for that supplier. The orders, item rows, buyer warnings, numbering and answer are those `CreateForGroups` states for these groups |
| Planner.EveryLowSupplierOrdered | server/services/pedidos.ts:165-205 | when every group got its order, so did the supplier of every low-stock material with a truthy, existing supplier |
| Planner.LowMaterialHasAGroup | server/services/pedidos.ts:165-177 | a low-stock material whose joined supplier is truthy lies in that supplier's group |
| Planner.GroupItemsDependsOnMaterialsAndBom | server/services/pedidos.ts:183 | the quantities read inside the loop are those of the run's start, since order creation writes no material or bill-of-materials row |
| Orders.ParseStatus | server/routes/pedidos.ts:155-160 | a status text is accepted exactly when it is one of the five, and it names the status it parses to |
| Orders.StatusRoundTrip | server/routes/pedidos.ts:156 | every status's column text is accepted and parses back to it |
| Model.FindListed | server/routes/pedidos.ts:167-180 | the read-back finds an order with the id whose supplier and user exist, or none exists |
| Model.FindListedAppended | server/routes/pedidos.ts:130-142 | when no stored order has the new id, the read-back over the orders plus the new one finds it exactly when its supplier and user exist |
| Orders.UpdateStatus | server/routes/pedidos.ts:153-187 | an invalid text writes nothing and answers 400; otherwise every order with the id takes the status. The answer is found exactly when such an order survives the joins; a valid status fails only with 404. Not found still leaves the UPDATE in place; no other column or table changes |
| Orders.AnyStatusFollowsAny | server/routes/pedidos.ts:156-165 | any status can follow any other: there is no transition rule |
| Orders.OverdueRows | server/routes/pedidos.ts:192-201 | exactly the open orders (pending, approved, shipped) with a delivery date before today, whose supplier and user exist |
| Orders.OverdueList | server/routes/pedidos.ts:190-209 | the overdue route lists those same orders, no more and no fewer, with earliest expected delivery first |
| Orders.PendingRows | server/routes/pedidos.ts:214-222 | exactly the pending orders whose supplier and user exist |
| Orders.PendingList | server/routes/pedidos.ts:212-230 | the pending route lists those same orders, newest first |
| Orders.JobOverdue | server/services/scheduler.ts:72-78 | the deadline job's query: the overdue orders whose supplier exists (no user join) |
| Orders.JobAndRouteAgree | server/services/scheduler.ts:72-78 | when every order's user exists, the job and the overdue route count the same orders |
| Scheduler.Written | server/services/scheduler.ts:84-95 | inserts outside a transaction: a refused insert keeps exactly the ones before it |
| Scheduler.StockJobNotices | server/services/scheduler.ts:17-66 | no orders: no notice. Some orders: one info per admin. A refused info insert: the infos written so far, then the errors. A failed run: the errors up to the refused insert. Every recipient is an admin |
| Scheduler.StockJob | server/services/scheduler.ts:17-66 | without a buyer the job writes nothing and reports 0. Otherwise the new orders are the snapshot's supplier groups' orders, in group order, each numbered by the corrected sequencer; their item rows and buyer warnings are appended, and a success reports one order per group. A failure is the refusal of the first group whose transaction is refused. Then the notices for the outcome (the count or the error) follow the buyer warnings, and nothing else changes |
| Scheduler.DeadlineNotices | server/services/scheduler.ts:69-100 | no overdue order: no notice; otherwise one warning per buyer carrying the overdue count, up to a refused insert; every recipient is a buyer |
| Scheduler.DeadlineJob | server/services/scheduler.ts:69-100 | the deadline job only appends its notices: no order or any other table changes |
| Scheduler.DeadlineJobMatchesRoute | server/services/scheduler.ts:72-92 | when every order's user exists, the job fires exactly when the overdue route's list is non-empty, and reports that list's length |
| Scheduler.SwitchKeepsJobsInStep | server/services/scheduler.ts:102-112 | the two jobs are always on or off together, and the last call wins |
| Suppliers.GetSupplier | server/routes/fornecedores.ts:29-45 | found exactly when a supplier has the id, and then it is that supplier; otherwise 404 |
| Suppliers.CreateSupplier | server/routes/fornecedores.ts:48-84 | refused with DUPLICATE_CNPJ, nothing written, exactly when the CNPJ is truthy and already stored. Otherwise the supplier is appended without lead time, and a lookup finds it. Keeps checked CNPJs unique |
| Suppliers.DeleteSupplier | server/routes/fornecedores.ts:119-150 | refused with FORNECEDOR_COM_PEDIDOS while an order references the supplier; 404 without change when no supplier has the id; otherwise exactly the rows with the id go. Keeps every order's supplier existing |
| Suppliers.DeleteUndoesCreate | server/routes/fornecedores.ts:48-150 | deleting a supplier just created, before any order names it, gives back the store from before the creation |
| Products.AddBomRow | server/routes/produtos.ts:80-127 | 404 when the product is missing; 400 when the material is already in the structure; otherwise exactly one row is appended. The answer carries it when its material exists. Keeps each material once per product |
| Products.AddBomRowRaisesNeed | server/routes/produtos.ts:107-110 | an added row raises the planner's need of its material by its quantity and no other material's need |
| Products.RemoveBomRow | server/routes/produtos.ts:130-148 | succeeds exactly when a row with that id under that product exists; then exactly those rows go; otherwise 404 without change |
| Products.RemoveUndoesAdd | server/routes/produtos.ts:80-148 | removing the row just added gives back the store from before the addition |
| Products.CreateProduct | server/routes/produtos.ts:151-195 | refused with DUPLICATE_CODE, nothing written, exactly when the internal code is taken; otherwise the product is appended; keeps codes unique |
| Products.DeleteProduct | server/routes/produtos.ts:230-248 | succeeds exactly when a product has the id; then exactly those rows go and codes stay unique; otherwise 404 without change |
| Products.DeleteUndoesCreate | server/routes/produtos.ts:151-248 | deleting a product just created gives back the store from before the creation |
| Materials.GetMaterial | server/routes/materiais.ts:33-49 | found exactly when a material has the id, and then it is that material; otherwise 404 |
| Materials.OrZero | server/routes/materiais.ts:64-65 | the zero default: a given number is kept (a zero stays zero) and a missing one becomes 0 |
| Materials.CreateMaterial | server/routes/materiais.ts:52-79 | always appends one material: the given texts, each missing number as 0, no supplier. A lookup by the new id finds it |
| Materials.CreatedMaterialIsNeverGrouped | server/routes/materiais.ts:57-61 | a material created by the route has no grouping key, so the planner never orders it |
| Materials.DeleteMaterial | server/routes/materiais.ts:114-132 | succeeds exactly when a material has the id; then exactly those rows go; otherwise 404 without change |
| Materials.DeleteUndoesCreate | server/routes/materiais.ts:52-132 | deleting a material just created gives back the store from before the creation |
| Materials.BelowMinimumRows | server/routes/materiais.ts:137-138 | exactly the materials whose stock is strictly below their minimum |
| Materials.LowStockList | server/routes/materiais.ts:135-145 | the low-stock route lists exactly those materials, lowest stock first |
| Materials.LowStockListWithinSnapshot | server/routes/materiais.ts:138 | every material the route lists is in the planner's snapshot |
| Materials.AtMinimumOnlyInSnapshot | server/routes/materiais.ts:138 | a material exactly at its minimum is in the planner's snapshot but not in the route's list (strict against non-strict) |
| Materials.MaterialRouteAsWritten | server/routes/materiais.ts:33-49 | as registered, every `GET /materiais/<segment>` is answered as a lookup by id and never as a list |
| Materials.AsWrittenShadowsLowStock | server/routes/materiais.ts:33-44 | `GET /materiais/baixo-estoque` answers 404 when no material has that id, and no segment reaches the low-stock list |
| Materials.CorrectedRouteServesBoth | server/routes/materiais.ts:135-145 | with the corrected order, the low-stock path lists every material strictly below its minimum, and a material is still found by its id |

## Left out

- Concurrency: two requests or a job and a request running at once can read the same last order number. Each operation is modelled as one atomic step.
- Floating point: quantities and money are exact reals. JavaScript's `100 * 1.1` is `110.00000000000001`, which `Math.ceil` turns into 111; the model gives 110.
- The cron timing and the wall clock: when a job fires is outside the model. `now`, `today` and `year` are parameters.
- SQL collation: text comparisons (`cnpj = ?`, `codigo_interno = ?`, the order-number sort) are modelled as exact character comparisons, not case- or accent-insensitive ones.
- Bind parameters: an absent body field (`undefined`) is modelled as NULL. The mysql2 driver refuses `undefined`, and the route then answers 500.
- The `PUT /:id` routes of suppliers, products and materials, and the `GET /` list routes: the update routes build their UPDATE from arbitrary body keys, and the list routes only read.
- Authentication, the chat, users and the user interface.
- Schema defaults and foreign keys. The manual order's type is `Kind.ColumnDefault`; a new supplier's lead time and a new material's supplier are NULL. A cascade or a foreign-key refusal on delete or insert is not modelled.
- Read queries that fail (a lost connection, say) are not modelled: the snapshot, the quantity query, the buyer and admin queries, and the read-backs after a write. Refused writes are modelled for the order transactions and the notification inserts only; the single-statement writers below do not model them.
- `Number()` on texts with spaces, signs, decimals or exponents: order numbers only hold digits, or else NaN is modelled.
- Surrogate ids of item and notification rows: nothing reads them.
- Integer-like keys reordered by `Object.entries`: supplier ids are uuids, so the groups keep their first-appearance order (`Planner.GroupBySupplierOrder`).
- `Promise.all` runs the quantity queries concurrently. They only read, so they are modelled in sequence.
- The buyer query inside the loop is re-run per group. Users are never written, so the model reads the first buyer once.
- The joined names in answers (`fornecedor_nome`, `usuario_nome`, `material_nome`): answers carry the row itself. `Products.AddBomRow` keeps the material name and unit.
- NaN from the zero default on a non-numeric text: `Materials.MaterialRequest` carries numbers only.
- OrderWriter.AutomaticOrder: numbers with the corrected sequencer `Sequencer.NextNumber`, not the code's lexicographic rule. The two agree while every number of the year is well formed with a sequence up to 9999 (`Sequencer.AsWrittenAgreesBelow10000`, `OrderWriter.AutomaticOrderNumber`). Past that the code issues PED-y-10000 again, and after a last number with a non-digit sequence it issues "PED-y-0NaN" (`Sequencer.AsWrittenAfterMalformed`). The code never stores such a number itself, so that case is not listed under Findings.
- OrderWriter.ManualOrder: numbers with the corrected sequencer, as `OrderWriter.AutomaticOrder` does, for the same reason.
- Planner.PlaceGroupOrder: numbers with the corrected sequencer, through `OrderWriter.AutomaticOrder`.
- Planner.CreateForGroups: numbers with the corrected sequencer, through `OrderWriter.AutomaticOrder`; the claim that numbers stay unique holds of the corrected sequencer only.
- Planner.GenerateOrders: numbers with the corrected sequencer, through `Planner.CreateForGroups`.
- Scheduler.StockJob: numbers with the corrected sequencer, through `Planner.GenerateOrders`.
- Suppliers.CreateSupplier: a refused INSERT (a lost connection, say) is not modelled. The route answers 500 and nothing changes (server/routes/fornecedores.ts:80-83).
- Suppliers.DeleteSupplier: a refused DELETE (a lost connection, say) is not modelled. The route answers 500 and nothing changes (server/routes/fornecedores.ts:146-149).
- Products.AddBomRow: a refused INSERT (a lost connection, say) is not modelled. The route answers 500 and nothing changes (server/routes/produtos.ts:123-126).
- Products.RemoveBomRow: a refused DELETE (a lost connection, say) is not modelled. The route answers 500 and nothing changes (server/routes/produtos.ts:144-147).
- Products.CreateProduct: a refused INSERT (a lost connection, say) is not modelled. The route answers 500 and nothing changes (server/routes/produtos.ts:188-192).
- Products.DeleteProduct: a refused DELETE (a lost connection, say) is not modelled. The route answers 500 and nothing changes (server/routes/produtos.ts:244-247).
- Materials.CreateMaterial: a refused INSERT (a lost connection, say) is not modelled. The route answers 500 and nothing changes (server/routes/materiais.ts:75-78).
- Materials.DeleteMaterial: a refused DELETE (a lost connection, say) is not modelled. The route answers 500 and nothing changes (server/routes/materiais.ts:128-131).
- Orders.UpdateStatus: a refused UPDATE (a lost connection, say) is not modelled. The route answers 500 and nothing changes (server/routes/pedidos.ts:183-186).
- Orders.OverdueList: table order is not kept among orders due on the same day, because the database gives no order for ties.

## Findings

| source | as written | input that shows it | evidently intended | confidence | as-written member | corrected member |
|---|---|---|---|---|---|---|
| server/services/pedidos.ts:59-66 | the next number is one past the lexicographically greatest number of the year (`ORDER BY numero_pedido DESC`); the same code is at server/routes/pedidos.ts:84-92 | orders PED-2026-9999 and PED-2026-10000 stored: "PED-2026-10000" sorts before "PED-2026-9999", so PED-2026-10000 is issued again | one past the numerically greatest sequence of the year, so every number is new | high, not executed | Sequencer.AsWrittenRepeatsAfter9999 | Sequencer.NextNumber |
| server/routes/materiais.ts:33-49 | `GET /:id` is registered before `GET /baixo-estoque`, and Express tries routes in registration order | `GET /materiais/baixo-estoque` with no material whose id is "baixo-estoque": answered 404 by the lookup | the low-stock list of lines 135-145 | high, not executed | Materials.AsWrittenShadowsLowStock | Materials.CorrectedRouteServesBoth |
