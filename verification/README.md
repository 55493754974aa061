# Customer and loan service: a verified model

A Dafny model of the stateful parts of the service and proofs about them. The database tables are
sequences of rows that are only ever marked obsolete; each service call is one atomic step.

| file | what it models |
|---|---|
| `Tables.dfy` | tables of soft-deleted rows, the queries and updates on them, and how each looks through the visible rows |
| `DeviceLogin.dfy`, `LoginTables.dfy` | one-time codes for login and MPIN reset, device binding, the shared attempt counter and the lock |
| `DeviceAnswers.dfy` | what each answer of these endpoints means, told from the history |
| `MpinFailures.dfy`, `MpinHistory.dfy` | the MPIN failure log and the block it leads to, and what the answers mean |
| `Approvals.dfy`, `ApprovalTables.dfy` | requests, decisions and direct superadmin operations of the back office |
| `ApprovalPaths.dfy` | approving a request compared with doing it directly, and with what its form asked for |
| `ApprovalAnswers.dfy` | who decides, what approvals bring about, when actions are accepted and why they are refused |
| `ImportRows.dfy`, `BulkImport.dfy` | bulk creation and bulk update of customers |
| `ImportLaws.dfy` | what these accept, save and overwrite, column by column |
| `FinnOneMaps.dfy` | one customer number and one application number for each CIF |
| `ReferenceMerge.dfy` | merging interleaved reference rows into customer profiles |
| `Membership.dfy` | the nightly reconciliation of membership cards |
| `EMandateStatus.dfy` | reporting e-mandate and penny-drop outcomes |

Code that updates rows in place is a class whose methods are proved against a step function on a
simpler state (`View`): one slot per customer instead of device rows, a list of open failure times
instead of log rows, the visible rows instead of the tables. The theorems about whole runs are lemmas
about those step functions, stated against readings of the history (the requests and their answers)
that never look at a table; what the back office accepts and brings about is told of the visible rows, too.

Run `dafny verify dfyconfig.toml` to check everything.

## Reading the source

- Hashing is equality, encrypted columns are plain values, mobile numbers and UUIDs are customer ids.
- A query by a value that is null or undefined matches no row (SQL comparison with NULL); a property
  that is undefined is left out of an update.
- The acting user and the superadmin flag are parameters, as are the moment of a call and its window.
- The clock decides two things whose code disagrees with its messages: whether a lock still holds
  (src/modules/customer-login/customer-login.service.ts:284-297) and whether a code has expired
  (lines 807-813). Both are free inputs (`lockHolds`, `expired`); nothing is claimed about durations.
- The failure window is read through a settings row that was loaded without the interval columns
  (src/utils/helpers.ts:236-257, 286-309), so it is the current day; the proofs hold for any window whose
  start never moves back.
- Three branches are shown never to be taken: "used by other customer" in getOtp for a customer with a
  visible row, the insert in ForgetMpinService behind the device check, and the refusal of an approval
  for want of its e-mandate part.

## Results that qualify what the code seems to promise

- A second bulk creation saves nothing exactly when every row saved the first time had all five identity
  columns (`SecondCreateSavesNothing`); customer code, PAN and id number may pass validation missing.
- A second bulk update changes nothing, but reports no difference only if the rows carry every column of
  the records they update (`SecondSyncReportsNothing`); a column such as the record's id is never carried.
- For a bound on application suffixes, the largest is always picked exactly when the bound is below 2^31
  (`PickBoundExact`).
- The CIF choice is independent of row order exactly when all numbers of a CIF are equal, or all have
  suffixes and one has the largest (`OrderDoesNotMatterExactly`).
- The early return of the nightly job is reached exactly on a card read as Associate whose code is neither
  a known one nor "a" (`AbortsExactly`), and a pass settles a card exactly under the condition of
  `OnePassSettles`.
- An update approved and the same update made by a superadmin give the customer the same columns exactly
  when no null in the form would erase a value, but for created_on and modified_on: an approval writes those
  of the request row (`UpdatePathsAgree`, `UpdatePathsAgreeBesidesStamps`, `UpdatePathsAgreeOnMandates`).
- An approval writes back the whole customer as it was when the request was made. It changes nothing but its
  form exactly when nothing else was changed meanwhile (`ApprovalChangesOnlyItsForm`, `ApprovalUndoesEdit`).
- An update form that says "not locked" is accepted for a locked customer and its approval unlocks it
  (`FormCanUnlock`). That, and a superadmin's own such form while an update is pending, is exactly how pending
  updates come to disagree with a lock (`LocksFollowExactly`); otherwise approvals leave all locks alone.
- Deletion requests pile up (`DeletionsPileUp`), and nothing else does: a pending request that is not a
  deletion is its customer's first (`OnlyDeletionsPileUp`), and one pending request each is kept exactly until
  a clerk asks to delete a customer who has one (`OnePendingRequest`).
- A later reference row overwrites profile columns that are not reference columns, the second address line
  among them (`PlainColumnOverwritten`).

## Model

| member | source | states |
|---|---|---|
| DeviceLogin.StepIsLocal | src/modules/customer-login/customer-login.service.ts:200-843 | a request of one customer leaves every other customer's row and account as they are |
| DeviceLogin.StepKeepsDevice | src/modules/customer-login/customer-login.service.ts:241-415 | a customer's device changes only when getOtp creates its row, and then nobody else holds it |
| DeviceLogin.PairedAlways | src/modules/customer-login/customer-login.service.ts:241-415 | in every reachable state visible rows pair existing customers with devices one to one |
| DeviceLogin.DeviceNeverTakenFromHolder | src/modules/customer-login/customer-login.service.ts:275-283 | the "used by other customer" branch is unreachable once the customer has a visible row |
| DeviceLogin.BlockedIsRefused | src/modules/customer-login/customer-login.service.ts:219-239 | a blocked or deleted customer is refused whatever it asks, and nothing is written |
| DeviceLogin.SlotAfter | src/modules/customer-login/customer-login.service.ts:320-334 | how the answer to a request shows in the requester's own code, its use and its counter |
| DeviceLogin.SlotIsHistory | src/modules/customer-login/customer-login.service.ts:671-840 | in every run the stored code is the outstanding one and the counter is the number of failures since the last refill, at most three |
| DeviceLogin.RunsAreHonest | src/modules/customer-login/customer-login.service.ts:721-745 | every accepted code, login or reset, is the latest issued, of the matching kind, not accepted before |
| DeviceLogin.FreshIssueBetweenAcceptances | src/modules/customer-login/customer-login.service.ts:2565-2605 | between two acceptances there is an issue of exactly the code accepted second, with no other issue or acceptance after it |
| DeviceLogin.AcceptancesWithinIssues | src/modules/customer-login/customer-login.service.ts:2447-2461 | acceptances, plus one for an outstanding code, never exceed issues |
| DeviceLogin.AtMostThreeFailures | src/modules/customer-login/customer-login.service.ts:548-576 | at most three failed login codes or passwords between consecutive refills, in every run |
| DeviceLogin.LockIsHistory | src/modules/customer-login/customer-login.service.ts:756-787 | in every run a customer is locked exactly when its last lock event was a third-failure login code and getOtp has not lifted it since |
| DeviceLogin.ThirdFailureLocksUntilGetOtp | src/modules/customer-login/customer-login.service.ts:671-680 | from a third wrong login code until getOtp lifts the lock the customer stays locked and no code is accepted or compared |
| DeviceAnswers.StandingIsHistory | src/modules/customer-login/customer-login.service.ts:200-843 | in every run a customer's existence, block, MPIN, device and kind of code are readings of the requests and answers |
| DeviceAnswers.PasswordAnswer | src/modules/customer-login/customer-login.service.ts:548-587 | a password is accepted exactly from the device of an existing, unblocked customer with fewer than three failures since the last refill, when it is right; wrong is answered exactly when it is not |
| DeviceAnswers.LoginCodeAnswer | src/modules/customer-login/customer-login.service.ts:671-843 | a login code is accepted exactly when, further, the customer is not locked and it is the outstanding login code, not expired; wrong code exactly when another login code is outstanding |
| DeviceAnswers.ResetCodeAnswer | src/modules/customer-login/customer-login.service.ts:2519-2611 | the same for reset codes, which need an MPIN and do not count failures |
| DeviceAnswers.GetOtpAnswer | src/modules/customer-login/customer-login.service.ts:200-419 | a login code is issued exactly to an unblocked customer whose lock does not hold, on its own device or on one nobody holds |
| DeviceAnswers.AuthenticatedAnswer | src/modules/customer-login/customer-login.service.ts:1901-1975 | who passes the guard of authenticated endpoints |
| DeviceAnswers.BackOfficeAnswer | src/modules/customer/customer.service.ts:2989-3020 | the back office is refused exactly for a customer that does not exist |
| DeviceAnswers.RefusalsAreTrue | src/modules/customer-login/customer-login.service.ts:219-339 | every refusal names a cause that the history confirms |
| LoginTables.SlotsAfterOverlay | src/modules/customer-login/customer-login.service.ts:320-334 | an update of all rows of a customer changes that customer's slot and no other |
| LoginTables.HolderHasSlot | src/modules/customer-login/customer-login.service.ts:248-254 | the query for another holder of a device finds a row exactly when another customer's slot is on it |
| LoginTables.LoginService.GetOtp | src/modules/customer-login/customer-login.service.ts:200-419 | the tables after getOtp are those of the slot machine, refusals included; pairing is kept |
| LoginTables.LoginService.GetOtpOnKnownDevice | src/modules/customer-login/customer-login.service.ts:263-342 | the branch for a customer with a row |
| LoginTables.LoginService.GetOtpOnNewDevice | src/modules/customer-login/customer-login.service.ts:343-419 | the branch for a customer without one, which unlocks even when the device is taken |
| LoginTables.LoginService.ValidateOtp | src/modules/customer-login/customer-login.service.ts:622-843 | the tables after a login code check are those of the slot machine |
| LoginTables.LoginService.LoginWithPassword | src/modules/customer-login/customer-login.service.ts:463-620 | the tables after a password check are those of the slot machine, obsolete rows written or not |
| LoginTables.LoginService.CheckDeviceId | src/modules/customer-login/customer-login.service.ts:1901-1975 | the guard in front of authenticated endpoints |
| LoginTables.LoginService.ForgetMpin | src/modules/customer-login/customer-login.service.ts:2403-2475 | a reset code replaces whatever code was outstanding; no row is ever inserted |
| LoginTables.LoginService.VerifyForgetMpinOtp | src/modules/customer-login/customer-login.service.ts:2519-2611 | a reset code is accepted once; the counter is not touched |
| LoginTables.LoginService.ResetDevice | src/modules/customer/customer.service.ts:3199-3213 | the customer loses its visible row and nobody else does |
| LoginTables.LoginService.Delete | src/modules/customer/customer.service.ts:1715-1725 | the account is obsolete and has no visible row |
| LoginTables.LoginService.BlockUnblock | src/modules/customer/customer.service.ts:2989-3020 | the account is switched; unblocking clears the counter |
| MpinFailures.ActiveIsWithinAllowance | src/utils/helpers.ts:276-321 | in every run from a state within the allowance an active customer has fewer than the allowed open failures in any window that did not move back |
| MpinFailures.ReportIsWhatIsLeft | src/utils/helpers.ts:357-364 | the attempts left reported are at least one and exact for the state; blocked exactly when one or none was left |
| MpinFailures.AllowanceIsExact | src/utils/helpers.ts:292-324 | while the window stands, each failure costs one attempt and the last one blocks, whatever other customers do |
| MpinFailures.AllowanceRestored | src/modules/customer/customer.service.ts:2995-3019 | unblocking, a right MPIN or a logged success restores the full allowance |
| MpinFailures.LaterSeesFewer | src/utils/helpers.ts:294-313 | a window that starts later counts no more failures |
| MpinFailures.ActivityTables.CheckForFailedMpin | src/utils/helpers.ts:269-366 | the log table after a failure is that of the failure-time machine, with its answer |
| MpinFailures.ActivityTables.LogOperation | src/utils/helpers.ts:207-267 | only failures inside the window are closed |
| MpinFailures.ActivityTables.EnterMpin | src/modules/customer-login/customer-login.controller.ts:905-925 | all open entries of the customer are closed |
| MpinFailures.ActivityTables.BlockUnblock | src/modules/customer/customer.service.ts:2698-2739 | blocking keeps open failures, unblocking closes them |
| MpinHistory.FailuresAreHistory | src/utils/helpers.ts:207-366 | in every run from an empty log, who may act and how many failures are open in any window are readings of the requests and answers |
| MpinHistory.FailureAnswer | src/utils/helpers.ts:276-364 | the answer to a wrong MPIN is exact: refused, blocked, or the number of attempts left, from the failures nothing has closed |
| MpinHistory.OtherAnswer | src/modules/customer-login/customer-login.controller.ts:905-925 | a right MPIN and an operation pass exactly for a customer who may act |
| Approvals.ApplyTouchesOneCustomer | src/modules/customer/customer.service.ts:2698-2970 | a change to one customer leaves all other customers, devices and e-mandates as they are |
| Approvals.ApplyAchieves | src/modules/customer/customer.service.ts:2698-2970 | each kind of change brings about what it is for |
| Approvals.LiveIsReplay | src/modules/customer/customer.service.ts:2641-2973 | in every run the live tables are the replay, in order, of direct operations and approved requests with the effect they had when made; rejected ones count never and approved ones once |
| Approvals.DecidedOnce | src/modules/customer/customer.controller.ts:384-392 | each request is decided at most once and its status never changes again |
| Approvals.PartsAlwaysFollow | src/modules/customer/customer.service.ts:2613-2627 | in every run each e-mandate part has the status of its request, and every update request has one |
| Approvals.ApprovalFindsItsPart | src/modules/customer/customer.service.ts:2870-2878 | approving never fails for want of the e-mandate part |
| Approvals.StepKeepsOnePending | src/modules/customer/customer.controller.ts:175-203 | a step gives a customer a second pending request exactly when it is a clerk's deletion of a customer with one |
| Approvals.OnePendingRequest | src/modules/customer/customer.controller.ts:219-234 | no customer has two pending requests in any state of a run exactly when no such deletion is asked for |
| Approvals.OnlyDeletionsPileUp | src/modules/customer/customer.controller.ts:219-234 | in every run, deletions included, a pending request that is not a deletion is its customer's first |
| Approvals.DeletionsPileUp | src/modules/customer/customer.controller.ts:175-203 | with deletions a customer can have two |
| ApprovalPaths.PathsAgree | src/modules/customer/customer.service.ts:2989-3020 | block, unblock, lock, unlock, reset and delete: the approved path and the direct path give the same live tables |
| ApprovalPaths.UpdatePathsAgree | src/modules/customer/customer.service.ts:2854-2901 | for an update they give the customer the same columns exactly when no null would erase a value and the customer already has the request's created_on and modified_on |
| ApprovalPaths.UpdatePathsAgreeBesidesStamps | src/modules/customer/customer.service.ts:2583-2606 | those two columns aside, exactly when no null would erase a value |
| ApprovalPaths.UpdatePathsAgreeOnMandates | src/modules/customer/customer.service.ts:2568-2627 | the e-mandates come out the same exactly when no null would erase a value and every e-mandate of the customer has the values of the first |
| ApprovalPaths.ApprovalChangesOnlyItsForm | src/modules/customer/customer.service.ts:2555-2617 | in every run, stamps aside, an approval changes only columns of its form exactly when the customer still has every other value it had when the request was made |
| ApprovalPaths.ApprovalUndoesEdit | src/modules/customer/customer.controller.ts:219-234 | a superadmin's edit made while an update is pending is undone by its approval |
| ApprovalPaths.ApprovalKeepsLocks | src/modules/customer/customer.service.ts:2898-2901 | approving an update leaves all locks alone exactly when the request carries its customer's lock |
| ApprovalPaths.StepKeepsLocksFollowing | src/modules/customer/customer.controller.ts:236-245 | a step makes a pending update disagree with its customer's lock exactly when it is an accepted form saying "not locked" for a locked customer, by a clerk, or by a superadmin while an update is pending |
| ApprovalPaths.LocksFollowExactly | src/modules/customer/customer.controller.ts:236-245 | over every run, deletions included: pending updates always carry their customers' locks exactly when no such form is accepted |
| ApprovalPaths.UpdatesLeaveLocksAlone | src/modules/customer/customer.controller.ts:236-245 | while none was accepted, approving an update leaves the lock of every visible customer as it is |
| ApprovalPaths.FormCanUnlock | src/modules/customer/customer.controller.ts:236-245 | a form saying "not locked" passes for a locked customer and unlocks it once approved |
| ApprovalAnswers.DecidedBySomebodyElse | src/modules/customer/customer.controller.ts:401-409 | in every run a request is decided after it was made, as the decision says, by somebody other than its author or by a superadmin |
| ApprovalAnswers.LiveChangesOnlySo | src/modules/customer/customer.service.ts:2641-2973 | the live tables change only by a superadmin's own action or by the approval of an earlier request by such a person |
| ApprovalAnswers.ApprovalDoes | src/modules/customer/customer.service.ts:2698-2970 | an approval does to the visible rows what the action that made the request is for, and nothing else |
| ApprovalAnswers.DirectDoes | src/modules/customer/customer.service.ts:2989-3020 | a superadmin's action does so at once |
| ApprovalAnswers.DirectUpdateDoes | src/modules/customer/customer.service.ts:2583-2604 | a superadmin's update writes exactly the columns of its form, nulls included |
| ApprovalAnswers.PendingIsHistory | src/modules/customer/customer.controller.ts:384-392 | a customer has a pending request exactly when the history made one and did not decide it |
| ApprovalAnswers.AskAnswer | src/modules/customer/customer.controller.ts:219-380 | when exactly each action is accepted, and whether it takes effect or becomes a request |
| ApprovalAnswers.DecideAnswer | src/modules/customer/customer.controller.ts:384-409 | when exactly a decision is accepted, and what is answered |
| ApprovalAnswers.RefusalsAreTrue | src/modules/customer/customer.controller.ts:175-535 | every refusal names a cause that the history and the visible rows confirm |
| ApprovalTables.ApprovalService.BlockUnblockCustomer | src/modules/customer/customer.service.ts:2975-3063 | the tables after the call are those of the approval machine, guards included |
| ApprovalTables.ApprovalService.LockTransaction | src/modules/customer/customer.service.ts:3340-3437 | the same for locking transactions |
| ApprovalTables.ApprovalService.ResetCustomerMpin | src/modules/customer/customer.controller.ts:439-473 | the same for resetting the MPIN |
| ApprovalTables.ApprovalService.ResetDeviceId | src/modules/customer/customer.service.ts:3159-3248 | the same for resetting the device |
| ApprovalTables.ApprovalService.DeleteCustomer | src/modules/customer/customer.service.ts:1691-1745 | the same for deleting |
| ApprovalTables.ApprovalService.UpdateCustomer | src/modules/customer/customer.service.ts:2524-2639 | the same for updating, with the merged row and the e-mandate part a request stores |
| ApprovalTables.ApprovalService.VerifyCustomer | src/modules/customer/customer.service.ts:2641-2973 | the same for decisions, errors on missing customers included |
| ApprovalTables.ApprovalService.CarryOut | src/modules/customer/customer.service.ts:2698-2970 | the updates of an approval, which see visible rows only, have the effect the request stands for |
| ImportRows.ValidRowsHaveEmailAndMobile | src/modules/customer/customer.service.ts:2092-2112 | a row without e-mail or mobile number never passes validation |
| ImportRows.FreshExact | src/modules/customer/customer.service.ts:1837-1881 | scanning the shared list refines set membership: a row passes exactly when valid and its checked values are new and distinct |
| ImportRows.PickedValuesDistinct | src/modules/customer/customer.service.ts:1837-1881 | all checked values of the rows that pass are mutually distinct, within and across rows and columns |
| ImportRows.PickedIsSubsequence | src/modules/customer/customer.service.ts:1807-1919 | the rows that pass are exactly the fresh ones, in input order |
| ImportLaws.ValidExactly | src/modules/customer/customer.service.ts:2064-2128 | which rows are valid and which throw, column by column |
| ImportLaws.OneAt | src/modules/customer/customer.service.ts:2092-2098 | an accepted e-mail address has one @, with something before it and a dot after it |
| ImportLaws.PickedColumnsDistinct | src/modules/customer/customer.service.ts:1837-1881 | the e-mails, mobile numbers, customer codes and PANs (for updates id numbers) of the picked rows are all different, within and across rows |
| ImportLaws.NewColumnsArePicked | src/modules/customer/customer.service.ts:1837-1881 | a valid row with four different such values, none of which an earlier valid row has, is picked |
| BulkImport.SecondCreateSavesNothing | src/modules/customer/customer.service.ts:1801-1922 | a second creation run saves nothing exactly when all rows saved by the first had the five identity columns |
| BulkImport.NewAgain | src/modules/customer/customer.service.ts:1883-1917 | after a run a row counts as new again exactly when it was new and cannot be recognised |
| BulkImport.RecordAfterSync | src/modules/customer/customer.service.ts:2182-2212 | the active record of a code ends overlaid with the one row that claims it, or as it was |
| BulkImport.SyncOnRecord | src/modules/customer/customer.service.ts:2203-2209 | each record, active or obsolete, is overlaid with the claimant of its code or left alone |
| BulkImport.UpdatesAsBefore | src/modules/customer/customer.service.ts:2182-2203 | a row differs from its record during the run exactly when it did before the run |
| BulkImport.SecondSyncReportsNothing | src/modules/customer/customer.service.ts:2130-2225 | a second update run leaves the table alone, and reports no difference exactly when the rows carried all columns of the records they updated |
| BulkImport.HasNoDuplicate | src/modules/customer/customer.service.ts:2443-2451 | true exactly when the value is not in the list |
| BulkImport.ExamineRow | src/modules/customer/customer.service.ts:1837-1881 | the growing list holds exactly the values the set-based specification remembers |
| BulkImport.CustomerTable.BulkCustomerCreate | src/modules/customer/customer.service.ts:1801-1922 | the rows saved are the new ones among those picked; a row that throws leaves the table as it was |
| BulkImport.CustomerTable.BulkCustomerSyncFile | src/modules/customer/customer.service.ts:2130-2225 | the table after the run, and a count equal to the picked rows whose active record differed before it |
| ImportLaws.CreateSaves | src/modules/customer/customer.service.ts:1883-1917 | exactly the fresh rows are saved, in order and as given, of which no active record has e-mail, id number, mobile number, customer code and PAN |
| ImportLaws.SyncOverwrites | src/modules/customer/customer.service.ts:2182-2212 | a record takes the values the row with its customer code defines, exactly if that code's first active record differed; all else stays |
| ImportLaws.SyncCounts | src/modules/customer/customer.service.ts:2203-2220 | the count is the number of picked rows whose record differed before the run |
| FinnOneMaps.ChoiceIsFirstLargest | src/modules/customer/customer.service.ts:531-547 | the number kept for a CIF is the first of largest suffix; a first number without a suffix is never replaced |
| FinnOneMaps.OrderDoesNotMatterExactly | src/modules/customer/customer.service.ts:531-547 | the choice is independent of order exactly when the numbers are order free |
| FinnOneMaps.RowOrderDoesNotMatter | src/modules/customer/customer.service.ts:529-551 | permuting the rows of all CIFs changes no order-free choice |
| FinnOneMaps.InverseExact | src/modules/customer/customer.service.ts:548-550 | the map back is the exact inverse exactly when no number is the choice of two CIFs |
| FinnOneMaps.Invert | src/modules/customer/customer.service.ts:548-550 | every number leads to a CIF whose choice it is, in whatever order entries are visited |
| FinnOneMaps.FetchCustomerNumberAndCIFMap | src/modules/customer/customer.service.ts:516-552 | the map returned inverts the map from every CIF with rows to its choice |
| FinnOneMaps.PickIsChoice | src/modules/customer/customer.service.ts:471-486 | with suffixes below 2^31 the application picked is the first of largest suffix |
| FinnOneMaps.PickBoundExact | src/modules/customer/customer.service.ts:477-485 | a bound on suffixes guarantees that exactly when it is below 2^31 |
| FinnOneMaps.CheckCustomerBulkInstrumentDetails | src/modules/customer/customer.service.ts:446-514 | every instrument row of a pick is tagged with a CIF it was picked for, or left alone if it was picked for the empty CIF; other rows are left alone |
| FinnOneMaps.ChosenIsLargest | src/modules/customer/customer.service.ts:529-551 | each CIF with rows has one of its own numbers, none of them larger |
| FinnOneMaps.PickedExactly | src/modules/customer/customer.service.ts:454-486 | a CIF has an application exactly when one of its applications is fully or partially disbursed |
| FinnOneMaps.PickedIsLargest | src/modules/customer/customer.service.ts:454-510 | below 2^31 it is one of these, none of them larger |
| ReferenceMerge.FirstReferenceKept | src/modules/customer/customer.service.ts:837-855 | no later row changes a reference_* column |
| ReferenceMerge.SecondReferenceIsLast | src/modules/customer/customer.service.ts:805-835 | a reference2_* column is that of the last later row carrying it |
| ReferenceMerge.SecondReferenceUntouched | src/modules/customer/customer.service.ts:805-835 | a reference2_* column that no later row carries stays as it was |
| ReferenceMerge.PlainColumnOverwritten | src/modules/customer/customer.service.ts:818-822 | other profile columns are those of the last row carrying them, the first row included |
| ReferenceMerge.MergeReferences | src/modules/customer/customer.controller.ts:1717-1759 | whatever the interleaving, each profile is what its own rows make of it; a row without an object throws |
| ReferenceMerge.StoreColumns | src/modules/customer/customer.service.ts:805-835 | storing properties one after another lets the later of two sources of a column win |
| ReferenceMerge.ColumnNames | src/modules/customer/customer.service.ts:805-855 | under which column each value of a row is stored, first or later |
| ReferenceMerge.OnlyTheseNames | src/modules/customer/customer.service.ts:805-855 | nothing else is stored, the application number least of all |
| ReferenceMerge.AddressAppended | src/modules/customer/customer.controller.ts:1717-1759 | a given plot number gets the second address line appended, nothing else is touched |
| Membership.AbortsExactly | src/modules/customer-login/customer-membership.service.ts:453-465 | when exactly the early return is reached on a card |
| Membership.KnownCode | src/modules/customer-login/customer-membership.service.ts:574-659 | a card with the code A, S, G, P or D ends under that level's name, logged as an upgrade or downgrade exactly as the order A, S, G, P, D says |
| Membership.UnknownCode | src/modules/customer-login/customer-membership.service.ts:418-465 | any other code makes the card Associate, unless it spells the card's own level in a small letter |
| Membership.StatusWritten | src/modules/customer-login/customer-membership.service.ts:340-451 | the status stored: Cancelled for X, Suspended for S, else Active, written exactly when the card was active and dropped or its level differs |
| Membership.DropsLogged | src/modules/customer-login/customer-membership.service.ts:340-416 | a cancellation is logged exactly for an active card with X, a suspension for one with S |
| Membership.LevelReached | src/modules/customer-login/customer-membership.service.ts:418-451 | with a known code the card ends at the loyalty level |
| Membership.NotLeftActive | src/modules/customer-login/customer-membership.service.ts:340-416 | no card stays active when the loyalty record says cancelled or suspended |
| Membership.MovesLogged | src/modules/customer-login/customer-membership.service.ts:467-535 | whatever the code, UPGRADE is logged exactly when the level rises, DOWNGRADE exactly when it falls |
| Membership.ChangeIsTraceable | src/modules/customer-login/customer-membership.service.ts:436-451 | a changed card is flagged, a changed type is kept as previous, nothing else moves |
| Membership.OnePassSettles | src/modules/customer-login/customer-membership.service.ts:418-451 | when exactly one pass leaves nothing to do |
| Membership.RunStopsExactly | src/modules/customer-login/customer-membership.service.ts:453-465 | a run returns early exactly when one of its cards with a record reads as Associate and has an unknown code |
| Membership.NextRunIdleExactly | src/modules/customer-login/customer-membership.service.ts:418-465 | after a pass over all cards the next run completes exactly when every card could be settled, and then it writes and logs nothing |
| Membership.LoggedAsDeserved | src/modules/customer-login/customer-membership.service.ts:340-535 | the customers logged in a run are, kind by kind and in order, those of the cards that were dropped, rose or fell |
| Membership.RunConverges | src/modules/customer-login/customer-membership.service.ts:269-538 | with known codes no early return, all cards in line with loyalty, and a second run writes and logs nothing |
| Membership.MembershipService.CheckCard | src/modules/customer-login/customer-membership.service.ts:269-538 | one round of the loop on the tables |
| Membership.MembershipService.CheckMembershipChanged | src/modules/customer-login/customer-membership.service.ts:198-572 | cards and log up to where the run stops; notices are sent only by a complete run and then match the rows logged, kind by kind |
| EMandateStatus.RunIsHistory | src/modules/customer-login/customer-rl-application.api.service.ts:58-125 | in every run the statuses and success texts are those the recorded calls last carried and the failure lists what they reported; verification is pending exactly after a call made after two failures; the wallet is active exactly when e-mandate and penny drop were both last reported approved |
| EMandateStatus.FailuresNeverExceedThree | src/modules/customer-login/customer-rl-application.api.service.ts:64-88 | the e-mandate failure list never exceeds three |
| EMandateStatus.RecordedExactly | src/modules/customer-login/customer-rl-application.api.service.ts:58-72 | a call is recorded exactly when fewer than two failures were reported before the call before it; otherwise nothing changes, for good |
| EMandateStatus.EMandateService.EmandateStatusSet | src/modules/customer-login/customer-rl-application.api.service.ts:44-134 | the rows after a call are those of the step function |

## Left out

- HTTP calls, notifications, queues, logging, file storage, spreadsheets and database connections: their results are inputs.
- Uniqueness and NOT NULL constraints of the database, and errors of the mapper for unknown columns.
- Partial commits and concurrency between requests.
- Routing customers of the bulk job to create and update lists: a plain partition of keys by four lookups.
- Merging phone, address, income and employment rows: the same column stores as for references.
- Credit-limit arithmetic, getters, pagination, request validation decorators.
- Requests made by updateMyProfile and the two mobile-number services, which create no e-mandate part and bypass the guards.
- Approvals: the uniqueness checks of the update form against other customers and requests are one input (`clashes`), and the columns of a customer stand for those its request row shares, the columns of an e-mandate for those a request copies.
- MpinFailures: the checks on whether an MPIN is set, and the services that decide whether it is right, are inputs.
- FinnOneMaps.ParseInt: suffixes with leading blanks or a sign read as numbers in the service; here only leading digits do, and values are exact beyond 2^53.
- FinnOneMaps.OrZero: suffixes written with blanks, signs, fractions, exponents or hexadecimal prefixes read as 0.
- ImportRows.Validate: cells are text, null or undefined; numbers as cell values are not modelled.
- Membership.Lower: lower-casing is that of ASCII letters.
