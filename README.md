# Back-office bookkeeping, modelled in Dafny

This project models the bookkeeping core of a Node/Mongoose back office for a trading business:

- **Orders** (models/Orders.model.js): the order document and its save hooks.
  - Item hooks compute line totals.
  - The order hook computes subtotal, discount and total price. It also derives the paid and outstanding amounts and the order status.
  - `applyWholesalePricing` switches every item to wholesale.
  - `addPayment` appends a payment, saves the order and charges the owning customer. It does this all-or-nothing, inside a transaction.
- **Customers** (controllers/customersController.js):
  - NIC/phone uniqueness on create and update.
  - Outstanding-balance adjustments when an embedded order is added, edited or removed.
  - Customer payments.
  - The outstanding-balance report.
- **Business history** (controllers/businessHistoryController.js):
  - The nested merge of `{month, days[]}` data into a year record.
  - Per-year upsert, single and batched.
  - Update and delete by year.
- **Attendance sub-lists**, in three variants:
  - The generic service (services/attendanceService.js) and the employee controller (controllers/employeeController.js). Both key records by the start of the UTC day.
  - The worker controller (controllers/workerController.js). It keys records by UTC calendar day and stores the raw timestamp.
  - The employee and worker controllers also create and update their records, with a CNIC uniqueness check.
- **`AppError`** (utils/AppError.js): the `'fail'`/`'error'` classification and the fixed `isOperational`.

## Conventions

- **Money** is an integer number of minor units. **Dates** are integer milliseconds since the epoch. An unparseable date is `DateValue.InvalidDate`.
- **Request fields** are `Input<T>`, which distinguishes three cases:
  - `Undefined`: the field is absent.
  - `Null`: the field is present but falsy (`null`, `""` or `0` where the source tests truthiness).
  - `Given(v)`: the field is present.
- **ObjectId checks.** `mongoose.Types.ObjectId.isValid` is `Common.IsObjectIdText`: 12 characters, or 24 hexadecimal digits.
- **Collections.** A collection is a class whose `seq` or `map` field the handlers reassign. A handler loads a document, changes it and saves it back, so the model computes the new record and reassigns the field on success only.
- **Replies.** A handler returns `Reply(code, message)`. The attendance service returns a `ServiceResult`: a value, a thrown `AppError`, or a Mongoose validation error.
- **Errors passed to `next(error)`** are modelled as a 500 reply. The application's error handler is not part of this model.

## Model

| member | source | states |
|---|---|---|
| Common.OrZero | controllers/customersController.js:34-35 | `x \|\| 0` on a number: the value when given, 0 otherwise |
| Common.Max0 | models/Orders.model.js:99-109 | `Math.max(…, 0)`: at least 0 and at least x, and equal to one of them |
| Common.IndexOf | controllers/customersController.js:283-285 | `findIndex`: a found index holds the key and no earlier index does; none is found exactly when no element has the key |
| Common.RemoveWhere | services/attendanceService.js:105-110 | `filter(k !== key)`: never longer than the input, and the length is unchanged exactly when no element has the key (the not-found test) |
| Common.RemoveWhereMembers | services/attendanceService.js:106-108 | the filter keeps exactly the elements whose key differs |
| Common.RemoveWhereKeepsOrder | services/attendanceService.js:106-108 | the filter keeps the survivors in their original order: filtering s + t gives filter(s) + filter(t) |
| Common.RemoveWhereAbsent | controllers/employeeController.js:242-247 | filtering a list with no match returns it unchanged (the 404 case) |
| Common.InsertBy | controllers/businessHistoryController.js:27 | one insertion step of the stable sort adds exactly one element |
| Common.InsertKeepsSorted | controllers/businessHistoryController.js:27 | inserting into a sorted list keeps it sorted |
| Common.SortBy | controllers/businessHistoryController.js:34 | `sort((a, b) => a.k - b.k)`: a permutation of the input, ascending by key |
| Common.SortIsStable | controllers/businessHistoryController.js:34 | `Array.prototype.sort` is stable: the elements sharing any one key keep their input order |
| Common.MemberOfSorted | controllers/businessHistoryController.js:34 | sorting neither adds nor loses an element |
| Common.InsertKeepsDistinct | controllers/businessHistoryController.js:27 | inserting a new key into a list of distinct keys keeps the keys distinct |
| Common.SortKeepsDistinct | controllers/businessHistoryController.js:34 | sorting keeps distinct keys distinct |
| AppErrors.NewAppError | utils/AppError.js:2-7 | message and statusCode are stored unchanged; isOperational is true; status is `Fail` exactly when the code's decimal text starts with '4' |
| AppErrors.LeadingFourRange | utils/AppError.js:6 | a k+1-digit number's text starts with '4' exactly when it lies in [4·10^k, 5·10^k) |
| AppErrors.Magnitude | utils/AppError.js:6 | the number of digits of a code minus one: 10^k ≤ n < 10^(k+1) |
| AppErrors.ClassifyStatus | utils/AppError.js:6 | for every code: `Fail` exactly when the code is non-negative and lies in [4·10^k, 5·10^k) for its digit count (4, 40–49, 400–499, …); negative codes are `Error` |
| AppErrors.HttpCodeStatus | utils/AppError.js:5-7 | for three-digit codes: `Fail` exactly for 400–499 (400 and 404 fail, 500 errors); always operational |
| Customers.OwnRecordNeverClashes | controllers/customersController.js:115-134 | re-sending a customer's own NIC or phone never triggers the "used by another customer" 400 |
| Customers.BalanceEditKeepsWellFormed | models/Customers.model.js:5-7 | changing a customer's orders or balances never breaks the unique NIC and phone indexes |
| Customers.UpdateKeepsWellFormed | controllers/customersController.js:115-147 | an accepted update keeps ids, NICs and phones distinct |
| Customers.PatchedTotal | controllers/customersController.js:298-301 | copying request fields onto the order leaves total_price as the last supplied value, or unchanged |
| Customers.OutstandingAfterOrderEdit | controllers/customersController.js:298-309 | the outstanding balance moves by exactly newTotal − oldTotal and does not move when the total is unchanged; when the patched total is absent the result is None (NaN, so the save fails with 500) |
| Customers.EditWithoutTotalKeepsOutstanding | controllers/customersController.js:295-309 | an order edit that does not touch total_price leaves the balance unchanged |
| Customers.AfterPayment | controllers/customersController.js:400-404 | paid grows by the amount; outstanding drops by the amount, floored at 0; nothing else changes |
| Customers.WithBalance | controllers/customersController.js:468-470 | exactly the customers whose outstanding balance is positive, each as many times as it occurs in the collection |
| Customers.OutstandingReport | controllers/customersController.js:468-472 | the customers with a positive balance, each as many times as it occurs in the collection, in descending order of balance |
| Customers.CustomerCollection.CreateCustomer | controllers/customersController.js:17-39 | 400 when the NIC or phone is already used; 500 when a required field is missing; otherwise appends the customer with balances defaulted to 0 and no orders |
| Customers.CustomerCollection.UpdateCustomer | controllers/customersController.js:115-154 | 500 for a malformed id, 400 when another customer holds the NIC or phone, 500 on a failing validator, 404 for an unknown id; 200 exactly when none of these applies, with the supplied fields set; uniqueness is kept |
| Customers.CustomerCollection.AddOrderToCustomer | controllers/customersController.js:233-252 | 500 for a malformed id, 404 for an unknown customer; 200 exactly for a known customer, with the order appended and a positive total added to the balance |
| Customers.CustomerCollection.UpdateCustomerOrder | controllers/customersController.js:274-311 | 404 for an unknown customer or order; for a found order, 200 exactly when the balance stays a number (500 when the patched total makes it NaN), with the fields copied in order and the balance moved by the total's difference |
| Customers.CustomerCollection.DeleteCustomerOrder | controllers/customersController.js:333-360 | 404 for an unknown customer or order; otherwise exactly that order is removed, the others stay in order, and the balance drops by its total (or 0) with no floor |
| Customers.CustomerCollection.UpdateCustomerPayment | controllers/customersController.js:383-406 | 400 for a missing or non-positive amount before any lookup, 404 for an unknown customer; otherwise the customer becomes `AfterPayment` |
| Orders.ItemsWithTotals | models/Orders.model.js:82-85 | each item's item_total becomes (applied_price − discount_amount) × quantity, with no clamping |
| Orders.ItemsTotalIsSubtotalLessDiscount | models/Orders.model.js:91-107 | with current item totals, Σ item_total = subtotal − total_discount |
| Orders.SamePricingSameSums | models/Orders.model.js:91-97 | items with the same prices, discounts and quantities give the same subtotal and discount |
| Orders.StatusChain | models/Orders.model.js:125-136 | the four-branch chain never yields Cancelled, and with outstanding = total − paid it agrees with the reference table |
| Orders.StatusNeverRegresses | models/Orders.model.js:125-136 | paying more never moves the status back (Pending → Partially Paid → Fully Paid) |
| Orders.HooksComputeTotals | models/Orders.model.js:82-110 | on a new order or changed items: every item_total, subtotal = Σ price × qty, total_discount = Σ discount × qty, total_price = max(0, subtotal − discount) |
| Orders.HooksDerivePayments | models/Orders.model.js:113-137 | on a new order or changed payments: paid = Σ amounts, outstanding = total − paid (unclamped), status from the table, never Cancelled |
| Orders.HooksKeepInputs | models/Orders.model.js:82-140 | the hooks change no input field: invoice, customer, wholesale flag, payments, and the items apart from item_total |
| Orders.ResaveIsNoOp | models/Orders.model.js:88-140 | saving an unchanged saved order again changes nothing: totals are recomputed only when new or modified |
| Orders.PaymentsOnlySaveKeepsTotals | models/Orders.model.js:88-121 | a save of a loaded order whose items are unchanged keeps the items, subtotal, total_discount and total_price; with new payments, paid and outstanding follow from the kept total |
| Orders.OverpaidOrderFailsNextSave | models/Orders.model.js:62-63 | an order stored with a negative outstanding amount fails the min-0 validation on its next save |
| Orders.OverpaymentLeavesNegativeOutstanding | models/Orders.model.js:118-128 | a total of 100 with 120 paid leaves outstanding −20 and status Fully Paid |
| Orders.FreeOrderIsPending | models/Orders.model.js:99-136 | a new order whose discount covers its subtotal has total 0 and is Pending |
| Orders.ValidItemsHaveNonNegativeTotal | models/Orders.model.js:11-30 | items within the schema bounds, with discount at most the price, give subtotal − discount ≥ 0 |
| Orders.AsWholesale | models/Orders.model.js:145-149 | every item becomes wholesale, item count and order unchanged |
| Orders.WholesaleKeepsTotals | models/Orders.model.js:143-150 | switching to wholesale changes no price, discount, quantity or total |
| Orders.PaymentAddsToPaid | models/Orders.model.js:118-121 | appending a payment raises the paid sum by exactly its amount |
| Orders.OrdersDb.Commit | models/Orders.model.js:183-185 | the commit writes the saved order and the charged customer, and nothing else |
| Orders.OrderDoc.RunSaveHooks | models/Orders.model.js:82-140 | the document after the item hooks and then the order hook is `AfterHooks` of the one before |
| Orders.OrderDoc.RunItemHooks | models/Orders.model.js:82-85 | each item's total is recomputed, and the items are marked modified when a total changed |
| Orders.OrderDoc.RunOrderHook | models/Orders.model.js:88-140 | the totals block and then the payments block, each under its own condition |
| Orders.OrderDoc.RecomputeTotals | models/Orders.model.js:90-110 | totals are recomputed only on a new order or changed items |
| Orders.OrderDoc.RecomputePayments | models/Orders.model.js:113-137 | paid, outstanding and status are recomputed only on a new order, changed payments or a changed total |
| Orders.OrderDoc.Save | models/Orders.model.js:5-69 | the save succeeds exactly when every path passes the schema (the caller's inputs and the derived fields as they stand before the hooks) and the invoice id is unused; on success the hooks run and the order is stored; on failure nothing changes |
| Orders.OrderDoc.ApplyWholesalePricing | models/Orders.model.js:143-150 | is_wholesale is set and every item becomes wholesale; items are marked modified exactly when one changed |
| Orders.OrderDoc.AddPayment | models/Orders.model.js:153-193 | the payment is always appended (date defaulting to now); it succeeds exactly when the save succeeds and the customer exists; otherwise it fails with the validation message, else the duplicate-invoice message, else "Customer not found for this order."; on success the saved order is stored and the customer is charged with the floor at 0; on failure nothing stored changes |
| Orders.OrderDoc.PushPayment | models/Orders.model.js:157-162 | exactly one payment is appended at the end and the payments are marked modified |
| BusinessHistory.UpsertFacts | controllers/businessHistoryController.js:13-24 | replace-or-append of one day: the incoming entry is present, other keys are kept, nothing is invented, distinct keys stay distinct, and the length grows exactly when the key was new |
| BusinessHistory.UpsertAllKeepsDistinct | controllers/businessHistoryController.js:13-25 | merging days keeps the month's day numbers distinct, even when the input repeats a day |
| BusinessHistory.UpsertAllKeepsUnmentioned | controllers/businessHistoryController.js:13-25 | a stored day the input does not mention survives unchanged |
| BusinessHistory.UpsertAllLastWins | controllers/businessHistoryController.js:18-20 | the last incoming entry for a day is the one stored |
| BusinessHistory.UpsertAllInventsNothing | controllers/businessHistoryController.js:13-25 | every resulting day was stored or incoming |
| BusinessHistory.UpsertAllEntryFor | controllers/businessHistoryController.js:18-20 | a day is replaced wholesale: its totals are overwritten, not added |
| BusinessHistory.MergeDays | controllers/businessHistoryController.js:13-25 | the in-place day loop computes `UpsertAll` of the stored and incoming days |
| BusinessHistory.Merged | controllers/businessHistoryController.js:5-34 | the merged months are sorted by month number and are a permutation of the folded months |
| BusinessHistory.MergeMonthFacts | controllers/businessHistoryController.js:5-31 | merging one month keeps every month key, keeps untouched months, and keeps month numbers distinct |
| BusinessHistory.FoldKeepsKeys | controllers/businessHistoryController.js:5-32 | no month key is ever lost |
| BusinessHistory.FoldKeepsDistinctMonths | controllers/businessHistoryController.js:5-32 | distinct month numbers stay distinct, even when the input repeats a month |
| BusinessHistory.FoldKeepsUnmentioned | controllers/businessHistoryController.js:5-32 | a stored month the input does not mention survives unchanged |
| BusinessHistory.FoldKeepsDistinctDays | controllers/businessHistoryController.js:14-23 | days stay distinct within every month that was already stored |
| BusinessHistory.MergedKeepsDistinct | controllers/businessHistoryController.js:5-34 | after the final sort, months are distinct and sorted, and days in stored months are distinct |
| BusinessHistory.MergedKeepsUnmentioned | controllers/businessHistoryController.js:5-34 | a month the input does not mention survives the merge |
| BusinessHistory.HistoryDoc.MergeNested | controllers/businessHistoryController.js:4-35 | the nested in-place loops leave `months` equal to `Merged` of the old months and the input |
| BusinessHistory.MissingDaysThrowCases | controllers/businessHistoryController.js:5-13 | a month sent without days throws when its number is stored, and does not throw when it is the only such month and its number is new |
| BusinessHistory.UpsertYearFacts | controllers/businessHistoryController.js:80-96 | created exactly when the year was absent; the year is then present; distinct years stay distinct; other years are kept |
| BusinessHistory.RunBatch | controllers/businessHistoryController.js:57-73 | every item runs through the per-item upsert, one after another; a result is kept for each item that succeeded, and the batch succeeds exactly when every item did |
| BusinessHistory.BatchResultsFollowItems | controllers/businessHistoryController.js:57-76 | a successful batch reports one result per item, in the items' order, each with its item's year |
| BusinessHistory.BatchStep | controllers/businessHistoryController.js:58-71 | an item is upserted whatever happened before it; a failing item changes no record, adds no result and fails the batch; a successful one stores its upsert and appends one result for its year |
| BusinessHistory.RunBatchSplit | controllers/businessHistoryController.js:57-73 | running a batch in two parts equals running the whole: a failure in the first part does not stop the second |
| BusinessHistory.FailedItemIsSkipped | controllers/businessHistoryController.js:57-73 | a failing item leaves the records as they were, every later item is still applied, and the batch is reported failed |
| BusinessHistory.BatchKeepsDistinct | controllers/businessHistoryController.js:57-73 | any per-item upsert that keeps years distinct keeps them distinct over a whole batch, failures included |
| BusinessHistory.BatchKeepsDistinctYears | controllers/businessHistoryController.js:57-73 | a batch keeps year records distinct |
| BusinessHistory.HistoryCollection.Upsert | controllers/businessHistoryController.js:59-71 | the collection after one upsert is `UpsertYear`, and unchanged on failure |
| BusinessHistory.HistoryCollection.CreateHistoryRecord | controllers/businessHistoryController.js:79-101 | 201 exactly when the year was new, 200 exactly when an existing year was merged, 500 and no change when the body has no months or a present month arrives without days |
| BusinessHistory.HistoryCollection.CreateHistoryRecords | controllers/businessHistoryController.js:56-77 | the collection follows `RunBatch`, so the items after a failing one are still stored; 201 with the results exactly when every item succeeded, 500 otherwise |
| BusinessHistory.HistoryCollection.UpdateHistoryByYear | controllers/businessHistoryController.js:120-138 | 500 and no change when the year does not parse (the Number cast rejects NaN); 404 and no change when it is absent; 500 and no change when the body has no months or a present month lacks days; otherwise that record's months are merged (200) |
| BusinessHistory.HistoryCollection.DeleteHistoryByYear | controllers/businessHistoryController.js:140-154 | 500 and no change when the year does not parse; 404 and no change when nothing matches; otherwise exactly the first record for the year is removed |
| BusinessHistory.DeleteRemovesYear | controllers/businessHistoryController.js:143-149 | with distinct years, the deleted year is gone and every other record remains |
| Attendance.StartOfUtcDay | services/attendanceService.js:26-27 | `setUTCHours(0,0,0,0)`: the latest multiple of a day that is at most t |
| Attendance.StartOfUtcDayIdempotent | services/attendanceService.js:27 | normalising twice is normalising once |
| Attendance.SameStartIffSameDay | services/attendanceService.js:27-31 | two timestamps normalise to the same instant exactly when they fall on the same UTC day |
| Attendance.NormalisedIsStartOfDay | services/attendanceService.js:27 | a normalised date lies on its own UTC day, at its start |
| Attendance.Patched | services/attendanceService.js:82-83 | status and payment are replaced where given; the date never changes |
| Attendance.IfTruthy | controllers/employeeController.js:211-212 | a field is taken exactly when it is truthy |
| Attendance.AppendKeepsDistinct | services/attendanceService.js:29-40 | appending a record whose key is absent keeps keys distinct |
| Attendance.PatchKeepsDates | services/attendanceService.js:82-83 | updating status or payment changes no date, so distinct dates and days stay distinct |
| Attendance.RemoveKeepsDistinct | services/attendanceService.js:106-108 | filtering keeps distinct keys distinct |
| Attendance.NewestFirstOrder | controllers/workerController.js:390-392 | sorting by `b.date - a.date` gives the same records with dates descending |
| AttendanceService.EntityCollection.AddAttendanceRecord | services/attendanceService.js:11-43 | 400 for missing fields, then 400 for a malformed id, then 404, then a validation error for an invalid date; a record already on the normalised date throws exactly the duplicate 400; otherwise exactly one normalised record is appended |
| AttendanceService.EntityCollection.GetAttendanceRecords | services/attendanceService.js:45-54 | 400 for a malformed id, 404 for an unknown entity, otherwise the entity's records |
| AttendanceService.EntityCollection.UpdateAttendanceRecord | services/attendanceService.js:56-87 | 400 for a malformed id or date, 404 for an unknown entity, 404 for no record on the day; the first record of the day gets status when truthy and payment whenever defined; a null payment is exactly the validation error |
| AttendanceService.EntityCollection.DeleteAttendanceRecord | services/attendanceService.js:89-116 | 400 for a malformed id or date, 404 for an unknown entity, the record-not-found 404 when no record is on the day; otherwise every record of the day is removed and the rest keep their order |
| AttendanceService.AddKeepsDistinctDates | services/attendanceService.js:29-40 | an accepted add keeps the stored dates distinct |
| AttendanceService.SameDayIsDuplicate | services/attendanceService.js:26-38 | after adding a record, any timestamp on the same UTC day is a duplicate |
| AttendanceService.DeleteLeavesNoRecordOfDay | services/attendanceService.js:105-108 | after a delete no record of that day remains, every other record does, and distinct dates stay distinct |
| Employees.Updated | controllers/employeeController.js:79-83 | fields sent are set (phone cleared by null) and fields absent are kept |
| Employees.UpdateKeepsWellFormed | controllers/employeeController.js:67-83 | an accepted update keeps ids and CNICs distinct |
| Employees.CreateKeepsWellFormed | controllers/employeeController.js:13-21 | creating with a fresh CNIC keeps CNICs distinct |
| Employees.EmployeeCollection.CreateEmployee | controllers/employeeController.js:4-30 | 400 for missing name, CNIC or salary, 400 for a taken CNIC; otherwise the employee is appended with no attendance |
| Employees.EmployeeCollection.UpdateEmployee | controllers/employeeController.js:59-96 | 400 for a malformed id, 400 for a CNIC held by another employee, 500 on a failing validator, 404 for an unknown id; otherwise `Updated` |
| Employees.EmployeeCollection.AddAttendance | controllers/employeeController.js:115-158 | required fields before id format, then 404; an invalid date fails (500); a record already on the normalised day gives exactly the duplicate 400; otherwise one normalised record is appended |
| Employees.EmployeeCollection.UpdateAttendance | controllers/employeeController.js:179-220 | 400 for a malformed id or date, 404 for an unknown employee, the record-not-found 404 when no record is on the day; otherwise the first record of the day gets status and payment each only when truthy |
| Employees.EmployeeCollection.DeleteAttendance | controllers/employeeController.js:222-259 | 400 for a malformed id or date, 404 for an unknown employee, the record-not-found 404 when no record is on the day; otherwise every record of the day is removed |
| Employees.NullPaymentIsIgnored | controllers/employeeController.js:212 | a null payment leaves the stored payment alone, unlike the service's `!== undefined` rule |
| Workers.Updated | controllers/workerController.js:102-106 | only truthy fields are copied; the rest are kept |
| Workers.ZeroSalaryIsNotAnUpdate | controllers/workerController.js:106-112 | a salary of 0 counts as not provided and changes nothing |
| Workers.UpdateKeepsWellFormed | controllers/workerController.js:115-132 | an accepted update keeps ids and CNICs distinct |
| Workers.CreateKeepsWellFormed | controllers/workerController.js:22-36 | creating with a fresh CNIC keeps CNICs distinct |
| Workers.AddKeepsDistinctDays | controllers/workerController.js:211-230 | an accepted add keeps UTC days distinct |
| Workers.DeleteRemovesDay | controllers/workerController.js:343-347 | after a delete no record of that day remains, every other record does, and distinct days stay distinct |
| Workers.WorkerCollection.CreateWorker | controllers/workerController.js:10-49 | 400 for missing name, CNIC or salary, 400 for a taken CNIC; otherwise the worker is appended with empty attendance |
| Workers.WorkerCollection.UpdateWorker | controllers/workerController.js:92-149 | 400 for a malformed id, 400 when no truthy field remains, 400 for a CNIC held by another worker, 404 for an unknown id; otherwise `Updated` |
| Workers.WorkerCollection.AddAttendance | controllers/workerController.js:184-245 | id format before required fields, then 404; a record on the same UTC day gives exactly the duplicate 400; otherwise the raw date is appended; an invalid date fails (500 with records to compare, 400 without) |
| Workers.WorkerCollection.UpdateAttendance | controllers/workerController.js:252-315 | 400 for a malformed id or neither field, 404 for an unknown worker, the record-not-found 404 when the day has no record; otherwise the first record on the day gets each field only when truthy |
| Workers.WorkerCollection.DeleteAttendance | controllers/workerController.js:322-366 | 400 for a malformed id, 404 for an unknown worker, the record-not-found 404 when the day has no record; otherwise every record on the day is removed and the rest keep their order |
| Workers.WorkerCollection.GetWorkerAttendance | controllers/workerController.js:371-402 | 400 for a malformed id, 404 for an unknown worker; otherwise the worker's records, newest first, as a permutation |

## Left out

- Persistence, queries, sessions and network I/O. Collections are in-memory sequences and maps. Each handler runs to completion before the next begins.
- `Promise.all` in the batch upsert (controllers/businessHistoryController.js:57-73). It is modelled as a loop that upserts every item one after another, a failing item changing nothing and the later items still running. The interleaving of concurrent items is not captured: two items for the same new year could both be created concurrently, while the model merges the second into the first.
- Date parsing and formatting (`new Date(string)`, `toISOString`, `parseInt`). Dates arrive as parsed integers or as `InvalidDate`. Messages that embed a formatted date or a request id are replaced by fixed text, except the worker "not found" message.
- Floating-point money. Amounts are integers, and `isNaN` on the payment amount is covered by "not given".
- Values outside the enums (status, payment, price type, payment method). The datatypes admit only the valid values, so the enum validation errors are not modelled.
- A missing `amount` in `addPayment`. The amount is always a number.
- Descriptive order fields (business_name, location, phone_num, payment_method). No logic reads them.
- A new order's subtotal and total_price start at 0 instead of undefined. Both pass the min-0 validation, and the hooks always overwrite them on a new order.
- Orders.OrderDoc.AddPayment: after an aborted transaction, the in-memory document keeps the pushed payment and the recomputed fields. Only the stored state is rolled back.
- Customers.CustomerCollection.UpdateCustomerOrder: an edit of total_price is applied as given. The embedded order's own validation is not modelled.
- Customers.OutstandingReport: `.select("-orders")` is not modelled. The report returns the whole customer records.
- The customer schema spells the balance field `cOustandingAmt` (models/Customers.model.js:10), while every handler uses `cOutstandingAmt`. The model has a single outstanding field, as the handlers use it.
- The customer schema declares `orders` as ObjectId references. The model follows the controllers, which embed order records with `_id` and `total_price`.
- The worker controller imports `../models/WorkerModel`, which is not part of this model. The worker's shape comes from models/Workers.model.js.
- The error handler that `next(error)` reaches is not part of this model. Errors passed to it are 500 replies.
- A business-history month without a month number. Months always carry one.
- A business-history month sent with `days: null` is treated like one without days. A new month without days is stored with no days, which holds for an absent array; a stored null array that a later incoming month tried to extend is not modelled.
- Read-only and unrelated handlers are not modelled:
  - `fetchHistory` and `getHistoryByYear`.
  - The get-all, get-by-id and delete handlers for employees and workers.
  - `searchCustomers`, which uses a regex engine.
  - The order controller. Its `findByIdAndUpdate` bypasses the save hooks.
  - Authentication, routes and image upload.
- Test suites that expect a negative customer outstanding balance after a payment disagree with models/Orders.model.js:180, which floors the balance at 0. The model follows the code.
