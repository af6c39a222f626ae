# WooCommerce iOS core, modelled in Dafny

This project models the parts of the WooCommerce iOS app that hold their own
logic rather than calling into UIKit, Core Data or the network:

- **Notices** (`notice.dfy`, `notice_presenter.dfy`). The `Notice` record has a
  hand-written equality. The notice presenter keeps a FIFO queue of notices
  and at most one notice on screen. It drops a notice equal to one already
  shown or queued.
- **The strings merge script** (`localize_syntax.dfy`, `localize.dfy`). This is
  `Scripts/localize.py`. It reads a `Localizable.strings` file as comment
  blocks, each followed by a `"key" = "value";` line, and writes entries back.
  It merges an old file into a new one: the new file's keys and comments are
  kept, and the old file's translations are reused where the key is known.
- **The order store's persistence** (`reconcile.dfy`, `order_store.dfy`).
  Orders are stored by orderID. Items and coupons are reconciled by ID: each
  incoming one is updated or inserted, and the order's others are deleted.
  A status update is applied at once and reverted if the remote rejects it.
  An order the remote reports as not found is deleted.
- **The setting store's persistence** (`setting_store.dfy`). Site settings are
  upserted one group at a time. The settings of that group that did not
  arrive are deleted. The payments page path lookup returns a `Result`.
- **Refund conversion** (`refund.dfy`). This converts between the stored
  refund and the read-only `Refund`. Two fields are overwritten only when
  present, and missing values get defaults.
- **The feature flag table** (`feature_flags.dfy`). It maps a flag and a build
  configuration to on or off.
- **The generated `copy(...)` helpers** (`copiable.dfy`, `storage_copiable.dfy`,
  `woo_copiable.dfy`). Each argument either keeps its field (`.copy`) or
  replaces it. For an optional field the replacement may be `nil`.

Storage is modelled as Dafny maps keyed by the identifiers the store looks
records up by. Remote answers are method parameters. Swift's `Int64` is the
newtype `SwiftTypes.Int64`, and Swift's `T?` is `Wrappers.Option<T>`.
Objects the source updates in place are classes: the presenter, the
`LocalizedFile`, the two stores and the stored refund. Values are datatypes.
Each method is proved against a function, and the properties are proved as
lemmas about those functions.

## Model

| member | source | states |
|---|---|---|
| Notices.SameIffKeysAgree | WooCommerce/Classes/Tools/Notices/Notice.swift:72-80 | Two notices are equal exactly when title, subtitle, message, feedback type, notification identifier, action title and priority all agree |
| Notices.SameIsEquivalence | WooCommerce/Classes/Tools/Notices/Notice.swift:72-80 | The notice equality is reflexive, symmetric and transitive |
| Notices.SameIgnoresActionHandler | WooCommerce/Classes/Tools/Notices/Notice.swift:47-80 | Changing the action handler never makes two notices unequal |
| Notices.SameComparesInfoByIdentifier | WooCommerce/Classes/Tools/Notices/Notice.swift:77 | Notification info is compared by identifier only, and two notices with no info agree on it |
| Notices.NewNoticeDefaults | WooCommerce/Classes/Tools/Notices/Notice.swift:52-67 | The initializer leaves every optional field nil and sets the priority to default |
| Notices.Without | WooCommerce/Classes/Tools/Notices/DefaultNoticePresenter.swift:51 | Removing the notices equal to `n` leaves none equal to `n`, keeps every other notice, and adds nothing |
| Notices.WithoutConcat | WooCommerce/Classes/Tools/Notices/DefaultNoticePresenter.swift:51 | The removal distributes over concatenation, so the kept notices stay in order |
| Notices.WithoutAbsent | WooCommerce/Classes/Tools/Notices/DefaultNoticePresenter.swift:51 | A queue with nothing equal to `n` is unchanged by the removal |
| Notices.WithoutKeepsNoDuplicates | WooCommerce/Classes/Tools/Notices/DefaultNoticePresenter.swift:51 | The removal keeps a duplicate-free queue duplicate-free |
| NoticePresenting.DefaultNoticePresenter.constructor | WooCommerce/Classes/Tools/Notices/DefaultNoticePresenter.swift:17-25 | The presenter starts with an empty queue, nothing on screen, and no dismiss handler |
| NoticePresenting.DefaultNoticePresenter.Enqueue | WooCommerce/Classes/Tools/Notices/DefaultNoticePresenter.swift:37-46 | A notice equal to the one on screen or to a queued one changes nothing. Otherwise it joins the back of the line: it is shown at once if the screen was free, or else queued. Afterwards a notice is always on screen, and the queue has no duplicates and never holds the on-screen notice |
| NoticePresenting.DefaultNoticePresenter.Cancel | WooCommerce/Classes/Tools/Notices/DefaultNoticePresenter.swift:50-55 | Every queued notice equal to the argument goes, and the rest keep their order. If the cancelled notice is on screen with a dismiss handler, the next queued notice is shown, with a dismiss handler exactly when the presentation is in-app |
| NoticePresenting.DefaultNoticePresenter.PresentNextNoticeIfPossible | WooCommerce/Classes/Tools/Notices/DefaultNoticePresenter.swift:63-70 | Nothing happens while a notice is on screen or the queue is empty. Otherwise the oldest queued notice leaves the queue and is presented and put on screen |
| NoticePresenting.DefaultNoticePresenter.Present | WooCommerce/Classes/Tools/Notices/DefaultNoticePresenter.swift:72-86 | Rendering records the notice presented and whether it installed a dismiss handler, and changes neither the queue nor the screen |
| NoticePresenting.DefaultNoticePresenter.Dismiss | WooCommerce/Classes/Tools/Notices/DefaultNoticePresenter.swift:201-206 | The screen and the dismiss handler are cleared and the next queued notice is shown. The presentation line (screen, then queue) loses exactly its head |
| LocalizeSyntax.LastSplit | Scripts/localize.py:22 | The rightmost place at or before `j` where the line splits into key and value. This is the split the greedy first group takes |
| LocalizeSyntax.MatchTranslationSound | Scripts/localize.py:22 | A matched line is `"key" = "value";` with a non-empty, newline-free key and value and an optional final newline |
| LocalizeSyntax.MatchTranslationGreedy | Scripts/localize.py:22 | The greedy first group: no reading of a matched line as `"k" = "v";` with a non-empty value has a longer key than the one captured |
| LocalizeSyntax.LastSplitAt | Scripts/localize.py:22 | Trying split positions from the right finds the rightmost one |
| LocalizeSyntax.MatchedLineLength | Scripts/localize.py:22 | A matching line holds at least the quotes, the separator, and one character each of key and value |
| LocalizeSyntax.MatchTranslationComplete | Scripts/localize.py:22 | A line matches exactly when it can be split into a non-empty key and value |
| LocalizeSyntax.TranslationRoundTrip | Scripts/localize.py:22 | A line written from a key and a quote-free value matches and gives back the same key and value |
| LocalizeSyntax.GreedyKeyExample | Scripts/localize.py:22 | Because the first group is greedy, a value that contains the separator loses its front part to the key |
| LocalizeSyntax.LStrip | Scripts/localize.py:41 | The result of `lstrip()` does not start with whitespace, taken as Python 2's `unicode.isspace` (Unicode 5.2, so U+180E included) |
| LocalizeSyntax.LStripRemovesSpacePrefix | Scripts/localize.py:41 | `lstrip()` removes a prefix made only of whitespace |
| LocalizeSyntax.ReplaceNewlines | Scripts/localize.py:40 | After the replacement no newline is left, and a line without one is unchanged |
| Localize.NewLocalizedString | Scripts/localize.py:31-34 | An entry exists exactly when the translation line matches. It keeps the comments and the line, and its key and value are the match's two groups |
| Localize.SkipBlankLines | Scripts/localize.py:66-68 | Skipping stops at or after `i`, at a line that is not blank |
| Localize.SkipBlankLinesSkipsBlanks | Scripts/localize.py:66-68 | Every line skipped is blank |
| Localize.CommentBlockEndStops | Scripts/localize.py:74-76 | The block search stops at the end of the file or at a line that ends a comment, and every line it passes is present and does not end a comment |
| Localize.CommentBlockEndAt | Scripts/localize.py:74-76 | When the lines from `i` are present and only line `last` ends a comment, the search stops exactly at `last` |
| Localize.NextStart | Scripts/localize.py:84-86 | Reading always moves past the entry just read |
| Localize.ParseFromStep | Scripts/localize.py:70-90 | When an entry is read at line `i`, the result is that entry followed by what is read from the next start |
| Localize.ParseFromFails | Scripts/localize.py:78-82 | When the line after a comment block is not a translation, reading stops with "invalid file: " and that line |
| Localize.BlockSound | Scripts/localize.py:71-76 | The block read at a non-blank line is either one single-line comment, or it runs to and includes the first line ending in `*/` |
| Localize.ParseFromSound | Scripts/localize.py:70-90 | Every entry read is a well-formed comment block followed by a matching translation line |
| Localize.ParseSound | Scripts/localize.py:58-92 | Every entry read from a file is well formed |
| Localize.ParseFileLinesRoundTrip | Scripts/localize.py:58-92 | Well-formed entries laid out as lines (comments, translation, blank line) read back as the same entries, with no error |
| Localize.ParseFromFileLines | Scripts/localize.py:70-90 | The same round trip from any line where such a layout starts |
| Localize.EntryAtEntryLines | Scripts/localize.py:71-82 | A well-formed entry laid out at line `i` is read back whole |
| Localize.IndexByKeyHas | Scripts/localize.py:88-90 | `strings_d` holds a key exactly when it held it before or an entry read has it |
| Localize.IndexByKeyLastWins | Scripts/localize.py:88-90 | A key maps to the last entry read with that key |
| Localize.IndexByKeyUntouched | Scripts/localize.py:88-90 | A key no entry read has keeps the entry it had |
| Localize.IndexByKeyKeepsOwnKeys | Scripts/localize.py:90 | `strings_d` keeps every entry under its own key |
| Localize.Merged | Scripts/localize.py:107-119 | The merged entries are one per new entry, in the new file's order. Each is the new entry, or the old entry with the new comments when the old file has its key |
| Localize.MergeWhichSideWins | Scripts/localize.py:110-116 | A merged entry has the new comments and key. It has the old translation line and value exactly when the old file has the key, and otherwise the new ones |
| Localize.RewrittenComments | Scripts/localize.py:38-41 | The rewrite keeps the first line and blocks of up to two lines. Interior lines lose their newlines, and lines from the third on do not start with whitespace |
| Localize.LStripIdempotent | Scripts/localize.py:41 | Stripping twice is stripping once |
| Localize.RewriteIdempotent | Scripts/localize.py:38-41 | Rewriting the comment lines a second time changes nothing |
| Localize.EntryTextLayout | Scripts/localize.py:36-47 | An entry whose comments are already rewritten is written as its comment lines, its translation line and a blank line, joined |
| Localize.SerializeIsFileLines | Scripts/localize.py:94-105 | For entries whose comments are already rewritten, the saved text is the joined line layout of the entries, in order |
| Localize.JoinLines | Scripts/localize.py:66-86 | Splitting a text the way successive `readline()` calls of a `codecs` file do (at every `unicode.splitlines` boundary, "\r\n" as one) loses and adds nothing: joining the lines gives the text back |
| Localize.LinesOfJoin | Scripts/localize.py:66-86 | Lines that each end in "\n" (or "\r\n") and hold no other line boundary, once joined, are split by `readline` back into the same lines |
| Localize.InnerBoundarySplits | Scripts/localize.py:66-86 | A line with a line boundary before its final newline ("\r" not followed by "\n", a form feed, U+2028 and the like) is not such a line: `readline` returns it as two lines, split after that boundary |
| Localize.ThreeLineBlockJoined | Scripts/localize.py:36-47 | Saving a three-line comment block turns its interior newline into " - ", and `readline` then reads the saved block back as two lines |
| Localize.SaveThenRead | Scripts/localize.py:58-105 | Well-formed entries whose comments are already rewritten and whose lines each end in "\n" (or "\r\n") with no other line boundary are saved as a text that `readline` splits into their line layout, and reading it back gives the same entries with no error |
| Localize.SerializeRewritten | Scripts/localize.py:94-105 | Entries already rewritten by a save write the same text again, so saving twice writes the same file |
| Localize.SingleCommentText | Scripts/localize.py:36-47 | A one-line comment is written back unchanged, then the translation line, then a newline |
| Localize.Unicode | Scripts/localize.py:36-47 | The text is the joined rewritten comments, the translation line and a newline, and the entry keeps the rewritten comments |
| Localize.SkipBlank | Scripts/localize.py:66-68 | The loop stops at `SkipBlankLines` |
| Localize.ReadCommentBlock | Scripts/localize.py:71-76 | The loop collects exactly the comment block's lines and stops at its last line |
| Localize.ReadEntry | Scripts/localize.py:71-86 | Reads the entry at `start`, or none when the translation line does not match, and reports where reading resumes |
| Localize.LocalizedFile.constructor | Scripts/localize.py:50-53 | A new file has no entries and an empty index |
| Localize.LocalizedFile.ReadFromFile | Scripts/localize.py:58-92 | The entries read are appended to `strings` in file order and indexed by key in `strings_d`, and the error is the one reading stopped with |
| Localize.LocalizedFile.SaveToFile | Scripts/localize.py:94-105 | The text is each entry's text in order, and every entry keeps its rewritten comments |
| Localize.LocalizedFile.MergeWith | Scripts/localize.py:107-119 | Returns a fresh file holding the merged entries, indexed by key, and leaves the receiver unchanged |
| Reconcile.UpsertedSpec | Yosemite/Yosemite/Stores/OrderStore.swift:184-192 | After the upsert loop, every incoming child's ID is stored with the data of the last one with that ID. A new child is owned by the order and an existing one keeps its owner. Every other child is untouched |
| Reconcile.UpsertedKeys | Yosemite/Yosemite/Stores/OrderStore.swift:184-192 | After the upsert loop the stored IDs are exactly the previously stored IDs and the incoming IDs |
| Reconcile.UpsertedUntouched | Yosemite/Yosemite/Stores/OrderStore.swift:184-192 | A stored child whose ID did not arrive is left exactly as it was |
| Reconcile.UpsertedOwner | Yosemite/Yosemite/Stores/OrderStore.swift:184-192 | An incoming child that was already stored keeps its owner, and a new one is owned by the order |
| Reconcile.UpsertedLastData | Yosemite/Yosemite/Stores/OrderStore.swift:184-192 | The data stored under an incoming ID is that of the last incoming child with that ID |
| Reconcile.ReconciledSpec | Yosemite/Yosemite/Stores/OrderStore.swift:182-201 | After upsert and prune, every incoming child is stored with its last data. The order keeps only children whose IDs arrived, and its other children are deleted. Children of other orders stay unless an incoming ID overwrote them. Nothing else is added |
| Reconcile.UpsertedStable | Yosemite/Yosemite/Stores/OrderStore.swift:184-192 | When every incoming child is already stored with its last data, the upsert changes nothing |
| Reconcile.ReconciledIdempotent | Yosemite/Yosemite/Stores/OrderStore.swift:182-201 | Reconciling a second time with the same children changes nothing |
| Reconcile.ReconcileChildren | Yosemite/Yosemite/Stores/OrderStore.swift:182-201 | The upsert loop followed by the prune computes `Reconciled` |
| Reconcile.Prune | Yosemite/Yosemite/Stores/OrderStore.swift:195-200 | The prune loop deletes exactly the order's children whose IDs did not arrive |
| OrderStore.UpsertOrderStoresOrder | Yosemite/Yosemite/Stores/OrderStore.swift:153-158 | Upserting stores the order under its orderID and leaves every other order as it was |
| OrderStore.UpsertOrderItems | Yosemite/Yosemite/Stores/OrderStore.swift:159 | After the upsert, every incoming item is stored with its last data, and every item the order still holds arrived with it. Other orders' items that did not arrive are untouched |
| OrderStore.UpsertOrderCoupons | Yosemite/Yosemite/Stores/OrderStore.swift:160 | The same for coupons, by couponID |
| OrderStore.ItemOfAnotherOrderStaysThere | Yosemite/Yosemite/Stores/OrderStore.swift:185-186 | An incoming item whose ID is stored under another order is updated in place and stays with that order |
| OrderStore.UpsertOrderValid | Yosemite/Yosemite/Stores/OrderStore.swift:153-162 | Upserting keeps every item and coupon owned by a stored order |
| OrderStore.UpsertOrderIdempotent | Yosemite/Yosemite/Stores/OrderStore.swift:153-162 | Upserting the same order twice is upserting it once |
| OrderStore.UpsertOrdersOrders | Yosemite/Yosemite/Stores/OrderStore.swift:166-178 | The orders stored after upserting a page do not depend on the items and coupons |
| OrderStore.UpsertOrdersSpec | Yosemite/Yosemite/Stores/OrderStore.swift:166-178 | After upserting a page, the stored orderIDs are the old ones plus the page's. Each order of the page is stored with the last data for its orderID, and orders not in the page are untouched |
| OrderStore.StoreOrdersKeys | Yosemite/Yosemite/Stores/OrderStore.swift:170-175 | The stored orderIDs are the old ones plus the page's |
| OrderStore.StoreOrdersUntouched | Yosemite/Yosemite/Stores/OrderStore.swift:170-175 | An order not in the page keeps its stored data |
| OrderStore.StoreOrdersLast | Yosemite/Yosemite/Stores/OrderStore.swift:170-175 | The last order of the page with an orderID is the one stored |
| OrderStore.UpdateStatusSpec | Yosemite/Yosemite/Stores/OrderStore.swift:138-149 | A stored order gets the new status and the previous one is returned. For an order not stored, nothing changes and the requested status is returned |
| OrderStore.UpdateStatusRevert | Yosemite/Yosemite/Stores/OrderStore.swift:99-110 | Writing back the status the update returned restores the stored state exactly |
| OrderStore.UpdateOrderOutcomeSpec | Yosemite/Yosemite/Stores/OrderStore.swift:97-113 | With no remote error the new status stays. After a remote error the store is exactly as before the optimistic update |
| OrderStore.DeleteOrderSpec | Yosemite/Yosemite/Stores/OrderStore.swift:123-131 | Afterwards no order with that ID is stored. If one was stored, no item or coupon is owned by it any more. Other orders, and the items and coupons of other orders, are untouched |
| OrderStore.DeleteOrderValid | Yosemite/Yosemite/Stores/OrderStore.swift:123-131 | Deleting keeps every item and coupon owned by a stored order |
| OrderStore.DeleteOrderIdempotent | Yosemite/Yosemite/Stores/OrderStore.swift:123-131 | Deleting twice is deleting once |
| OrderStore.ResetOrdersSpec | Yosemite/Yosemite/Stores/OrderStore.swift:50-56 | After a reset no order is stored and no item or coupon is owned by an order |
| OrderStore.RetrieveOutcomeSpec | Yosemite/Yosemite/Stores/OrderStore.swift:79-91 | A loaded order is upserted. A not-found error deletes the stored order. Any other error, or none at all, changes nothing |
| OrderStore.OrderStorage.constructor | Yosemite/Yosemite/Stores/OrderStore.swift:50-56 | A new store holds nothing |
| OrderStore.OrderStorage.ResetStoredOrders | Yosemite/Yosemite/Stores/OrderStore.swift:50-56 | The new state is `ResetOrders` of the old one |
| OrderStore.OrderStorage.DeleteStoredOrder | Yosemite/Yosemite/Stores/OrderStore.swift:123-131 | The new state is `DeleteOrder` of the old one |
| OrderStore.OrderStorage.UpdateOrderStatus | Yosemite/Yosemite/Stores/OrderStore.swift:138-149 | The new state and the returned status are those of `UpdateStatus` |
| OrderStore.OrderStorage.UpdateOrder | Yosemite/Yosemite/Stores/OrderStore.swift:97-113 | The new state is `UpdateOrderOutcome`, and the remote error is passed on |
| OrderStore.OrderStorage.RetrieveOrder | Yosemite/Yosemite/Stores/OrderStore.swift:76-93 | The new state is `RetrieveOutcome`. The caller gets the order and no error, or no order and the remote's error, which may be absent |
| OrderStore.OrderStorage.SynchronizeOrders | Yosemite/Yosemite/Stores/OrderStore.swift:60-72 | A returned page is upserted and no error reported. With no page, the store is unchanged and the remote's error is passed on |
| OrderStore.OrderStorage.UpsertStoredOrder | Yosemite/Yosemite/Stores/OrderStore.swift:153-162 | The new state is `UpsertOrder` of the old one |
| OrderStore.OrderStorage.UpsertStoredOrders | Yosemite/Yosemite/Stores/OrderStore.swift:166-178 | The loop leaves the state `UpsertOrders` of the old one |
| OrderStore.OrderStorage.HandleOrderItems | Yosemite/Yosemite/Stores/OrderStore.swift:182-201 | The items become their reconciliation with the order's incoming items, and the orders and coupons are unchanged |
| OrderStore.OrderStorage.HandleOrderCoupons | Yosemite/Yosemite/Stores/OrderStore.swift:205-224 | The coupons become their reconciliation with the order's incoming coupons, and the orders and items are unchanged |
| SettingStore.UpsertedKeys | Yosemite/Yosemite/Stores/SettingStore.swift:169-176 | The upsert loop stores exactly the old keys plus the site's incoming settingIDs |
| SettingStore.UpsertedUntouched | Yosemite/Yosemite/Stores/SettingStore.swift:169-176 | A setting of another site, or with a settingID that did not arrive, is untouched by the upsert |
| SettingStore.UpsertedLast | Yosemite/Yosemite/Stores/SettingStore.swift:169-176 | The last incoming setting with a settingID is the one stored under it |
| SettingStore.UpsertSettingsSpec | Yosemite/Yosemite/Stores/SettingStore.swift:167-186 | Every incoming setting is stored, using the last one for each settingID. The site's settings in the group are exactly those that arrived. Other sites' settings are untouched, as are the site's settings in other groups whose settingID did not arrive. Nothing else is added |
| SettingStore.UpsertSettingsStoresLast | Yosemite/Yosemite/Stores/SettingStore.swift:167-186 | After the whole upsert, the last incoming setting with a settingID is stored for the site |
| SettingStore.UpsertedNoop | Yosemite/Yosemite/Stores/SettingStore.swift:169-176 | An upsert whose incoming settings are all stored already changes nothing |
| SettingStore.UpsertSettingsIdempotent | Yosemite/Yosemite/Stores/SettingStore.swift:167-186 | Upserting the same settings twice is upserting them once |
| SettingStore.GetPaymentsPagePath | Yosemite/Yosemite/Stores/SettingStore.swift:110-117 | Succeeds exactly when the site's `woocommerce_checkout_pay_endpoint` setting is stored with a value, and returns that value. Otherwise it fails with `paymentsPageNotFound` |
| SettingStore.PaymentsPathAfterUpsert | Yosemite/Yosemite/Stores/SettingStore.swift:110-117 | After an upsert that brings the payments page setting, the lookup returns its value |
| SettingStore.SettingStorage.constructor | Yosemite/Yosemite/Stores/SettingStore.swift:167-186 | A new store holds no settings |
| SettingStore.SettingStorage.UpsertSettingsIn | Yosemite/Yosemite/Stores/SettingStore.swift:167-186 | The upsert loop and the prune loop leave the settings `UpsertSettings` of the old ones |
| SettingStore.SettingStorage.UpsertEach | Yosemite/Yosemite/Stores/SettingStore.swift:169-176 | The upsert loop leaves the settings `Upserted` from the old ones |
| SettingStore.SettingStorage.DeleteMissing | Yosemite/Yosemite/Stores/SettingStore.swift:178-185 | The prune loop deletes exactly the site's settings of the group whose settingID is not among the incoming ones |
| SettingStore.SettingStorage.UpsertStoredGeneralSettings | Yosemite/Yosemite/Stores/SettingStore.swift:128-137 | Upserts the general group |
| SettingStore.SettingStorage.UpsertStoredProductSettings | Yosemite/Yosemite/Stores/SettingStore.swift:142-151 | Upserts the product group |
| SettingStore.SettingStorage.UpsertStoredAdvancedSettings | Yosemite/Yosemite/Stores/SettingStore.swift:156-165 | Upserts the advanced group |
| SettingStore.SettingStorage.PaymentsPagePath | Yosemite/Yosemite/Stores/SettingStore.swift:110-117 | The completion's result is `GetPaymentsPagePath` of the stored settings |
| RefundConversion.ReadOnly | Yosemite/Yosemite/Model/Storage/Refund+ReadOnlyConvertible.swift:32-54 | Missing items become `[]`, a missing amount or reason `""`, and a missing date the current time. Shipping lines are nil unless shipping refunds are supported |
| RefundConversion.ReadOnlyAfterUpdate | Yosemite/Yosemite/Model/Storage/Refund+ReadOnlyConvertible.swift:11-54 | Reading back an updated refund gives the incoming identifiers, date, amount, reason and author. It has no shipping lines when the incoming refund had none, and the incoming automation flags where present |
| RefundConversion.UpdateIdempotent | Yosemite/Yosemite/Model/Storage/Refund+ReadOnlyConvertible.swift:11-28 | Updating twice with the same refund is updating once |
| RefundConversion.UpdateOfReadOnly | Yosemite/Yosemite/Model/Storage/Refund+ReadOnlyConvertible.swift:11-54 | A stored refund with all its optional scalars present, updated with its own read-only form, is unchanged |
| RefundConversion.StoredRefund.constructor | Yosemite/Yosemite/Model/Storage/Refund+ReadOnlyConvertible.swift:7 | A new managed refund has every optional field missing and every flag off |
| RefundConversion.StoredRefund.Update | Yosemite/Yosemite/Model/Storage/Refund+ReadOnlyConvertible.swift:11-28 | The fields become `Updated` of their old values |
| RefundConversion.StoredRefund.ToReadOnly | Yosemite/Yosemite/Model/Storage/Refund+ReadOnlyConvertible.swift:32-54 | The result is `ReadOnly` of the current fields |
| FeatureFlags.IsFeatureFlagEnabled | Experiments/Experiments/DefaultFeatureFlagService.swift:4-39 | A flag is on exactly when it is not one of the six in development, or the build is a developer or alpha build |
| FeatureFlags.DevelopmentBuildEnablesAll | Experiments/Experiments/DefaultFeatureFlagService.swift:4-39 | In developer and alpha builds every flag is on |
| FeatureFlags.ReleasedFeaturesAlwaysOn | Experiments/Experiments/DefaultFeatureFlagService.swift:10-23 | Large titles, the five shipping-label flags, push notifications for all stores, order list filters and every unlisted flag are on in every build |
| FeatureFlags.AppStoreBuild | Experiments/Experiments/DefaultFeatureFlagService.swift:8-37 | An App Store build turns off exactly barcode scanner, simple payments, Jetpack connection package support, order creation, hub menu and analytics |
| Codegen.Override | Storage/Storage/Model/Copiable/Models+Copiable.generated.swift:20-29 | Combining two copy arguments gives the later one when it is supplied, and otherwise the earlier one |
| Codegen.OverrideGetOr | Storage/Storage/Model/Copiable/Models+Copiable.generated.swift:20-29 | Applying two arguments in turn with `??` is applying their combination |
| StorageCopiable.GeneralAppSettings.Copy | Storage/Storage/Model/Copiable/Models+Copiable.generated.swift:8-43 | Each supplied argument replaces its field, and each field left as `.copy` is kept |
| StorageCopiable.GeneralAppSettingsCopyIdentity | Storage/Storage/Model/Copiable/Models+Copiable.generated.swift:8-43 | `copy()` with no arguments is the original value |
| StorageCopiable.GeneralAppSettingsCopyOneOptional | Storage/Storage/Model/Copiable/Models+Copiable.generated.swift:20-29 | Supplying one optional field, as a value or as nil, changes only that field |
| StorageCopiable.GeneralAppSettingsCopyOneSwitch | Storage/Storage/Model/Copiable/Models+Copiable.generated.swift:22-26 | Supplying one switch changes only that switch |
| StorageCopiable.GeneralAppSettingsCopyOneCollection | Storage/Storage/Model/Copiable/Models+Copiable.generated.swift:21-27 | Supplying the feedbacks or the known card readers changes only that field |
| StorageCopiable.GeneralAppSettingsCopyCompose | Storage/Storage/Model/Copiable/Models+Copiable.generated.swift:20-42 | Two successive copies equal one copy with the later arguments overriding the earlier ones |
| StorageCopiable.GeneralStoreSettings.Copy | Storage/Storage/Model/Copiable/Models+Copiable.generated.swift:47-61 | Each supplied argument replaces its field, and each field left as `.copy` is kept |
| StorageCopiable.GeneralStoreSettingsCopyIdentity | Storage/Storage/Model/Copiable/Models+Copiable.generated.swift:47-61 | `copy()` with no arguments is the original value |
| StorageCopiable.GeneralStoreSettingsCopyOneField | Storage/Storage/Model/Copiable/Models+Copiable.generated.swift:52-60 | Supplying one argument changes only that field |
| StorageCopiable.GeneralStoreSettingsCopyCompose | Storage/Storage/Model/Copiable/Models+Copiable.generated.swift:52-60 | Two successive copies equal one copy with the later arguments overriding the earlier ones |
| WooCopiable.AggregateOrderItem.Copy | WooCommerce/Classes/Copiable/Models+Copiable.generated.swift:8-41 | Each supplied argument replaces its field, and each field left as `.copy` is kept |
| WooCopiable.AggregateOrderItemCopyIdentity | WooCommerce/Classes/Copiable/Models+Copiable.generated.swift:8-41 | `copy()` with no arguments is the original value |
| WooCopiable.AggregateOrderItemCopyOneRequired | WooCommerce/Classes/Copiable/Models+Copiable.generated.swift:20-24 | Supplying one ID, the name or the quantity changes only that field |
| WooCopiable.AggregateOrderItemCopyOneOptional | WooCommerce/Classes/Copiable/Models+Copiable.generated.swift:23-27 | Supplying price, SKU, total or image URL, as a value or as nil, changes only that field |
| WooCopiable.AggregateOrderItemCopyAttributes | WooCommerce/Classes/Copiable/Models+Copiable.generated.swift:28 | Supplying the attributes changes only them |
| WooCopiable.AggregateOrderItemCopyCompose | WooCommerce/Classes/Copiable/Models+Copiable.generated.swift:20-40 | Two successive copies equal one copy with the later arguments overriding the earlier ones |
| WooCopiable.ShippingLabelSelectedRate.Copy | WooCommerce/Classes/Copiable/Models+Copiable.generated.swift:44-62 | Each supplied argument replaces its field, and each field left as `.copy` is kept |
| WooCopiable.ShippingLabelSelectedRateCopyIdentity | WooCommerce/Classes/Copiable/Models+Copiable.generated.swift:44-62 | `copy()` with no arguments is the original value |
| WooCopiable.ShippingLabelSelectedRateCopyOneField | WooCommerce/Classes/Copiable/Models+Copiable.generated.swift:51-61 | Supplying one argument changes only that field, including clearing a signature rate |
| WooCopiable.ShippingLabelSelectedRateCopyCompose | WooCommerce/Classes/Copiable/Models+Copiable.generated.swift:51-61 | Two successive copies equal one copy with the later arguments overriding the earlier ones |

## Left out

- Notice rendering is abstract. `Present` records the notice and whether a dismiss handler was installed. It does not model `presentNoticeInForeground` / `presentNoticeInBackground`, the views, animations, keyboard observer, haptics, system notifications (`UNMutableNotificationContent`) or the dismiss timer. Which kind of presentation happens is the input `inApp`. Calling the dismiss handler is modelled as a call to `Dismiss`.
- SameIffKeysAgree: the string fields are compared by code points, as Dafny compares `seq<char>`. Swift's `String ==` also identifies canonically equivalent strings, such as "\u{E9}" and "e\u{301}". So `Notices.Same`, and with it the duplicate guard of `Enqueue` and the removal in `Cancel`, tells such notices apart where the app treats them as equal. Unicode normalisation is not modelled.
- Pruned: `SettingStore.Pruned` and the settings map compare settingIDs by code points. A stored setting whose settingID is only canonically equivalent to an incoming one is deleted by the model, while Swift's `==` in the prune keeps it.
- Notices.NotificationInfo: the `userInfo` dictionary (`[String: Any]`) is not modelled. Equality never reads it.
- Notices.ActionHandler: a closure is modelled as an identity token. Only its absence from equality is stated.
- localize.py file I/O is not modelled. That covers `open`, UTF-8 decoding and encoding, `genstrings`, `iconv`, file renaming, `merge` and the command-line entry point. Reading works on the sequence of lines `readline()` would return, with "" past the end; `Lines` states where the `codecs` reader ends a line. Saving returns the text it would write.
- Localize.LocalizedFile.MergeWith: entries are values, so the model cannot show the aliasing of comment lists between the old, new and merged files that Python's shallow `copy` creates. For the same reason `__unicode__`'s in-place rewrite is modelled on the entry passed in.
- Localize.SaveThenRead: the round trip is stated for entries whose lines each end in "\n" and hold no other line boundary. A comment holding one (U+2028, say) is read back as more lines than were saved; `InnerBoundarySplits` proves the split. Saving replaces the newline of each interior line of a comment block of three or more lines with " - ", so the block is joined: `["/* a\n", " b\n", "c */\n"]` is saved as "/* a\n b - c */\n" and is read back as a two-line block. `ThreeLineBlockJoined` proves this example. What a longer block reads back as is not stated in general.
- Localize.LocalizedFile.ReadFromFile: the Python code raises an exception on an invalid translation line. The model returns the message as an error instead. The entries read before it stay appended, as in the source.
- Store plumbing is left out: `Store` dispatch, the remotes, `saveIfNeeded`, `saveDerivedType`, `derivedStorage.perform` and the main-thread hops. Remote answers are method parameters. Concurrent completions, such as a revert racing another update, are not modelled.
- OrderStore: Core Data storage is modelled as maps keyed by orderID, itemID and couponID. Duplicate objects with the same ID cannot arise in the model. `loadOrderItem(itemID:)` and `loadOrderCoupon(couponID:)` are global lookups, so each child records the order that holds it.
- OrderStore.DeleteOrder: the delete rule of the order's items and coupons is not part of this model. The model assumes a cascade delete. `OrderStore.ResetOrders` (`deleteAllObjects(ofType: Storage.Order.self)`) relies on the same rule to drop the items and coupons that orders own.
- OrderStore: `Order.update(with:)`, `OrderItem.update(with:)` and `OrderCoupon.update(with:)` are not part of this model. They are taken to copy every modelled field. Only the order fields the model names are kept, and the status is its raw string.
- SettingStore: settings are modelled as a map keyed by siteID and settingID. Duplicate objects with the same key cannot arise in the model, whereas `loadSiteSetting(siteID:settingID:)` returns the first of any duplicates. `SiteSetting.update(with:)` is not part of this model and is taken to copy every field. The stored setting's siteID is taken to be the siteID passed to the upsert, which the remote stamps on every setting it returns.
- SettingStore: the unit-testing helpers `upsertStoredGeneralSiteSettings` and `upsertStoredProductSiteSettings` (SettingStore.swift:196-204) call the same `upsertSettings` as the background wrappers. They are covered by `UpsertSettingsIn`.
- SettingStore: `retrieveSiteAPI` and the remote-facing actions are plumbing and are left out.
- RefundConversion.ReadOnly: `Date()` reads the clock, so the current time is the parameter `now`. The conversion of stored items and shipping lines is not part of this model, so the stored refund keeps them as read-only values.
- FeatureFlags: `BuildConfiguration.current` is a compile-time global, so it is a parameter. The flag enumeration is not part of this model. Its cases that the switch does not list are represented by `Unlisted`.
- StorageCopiable / WooCopiable: `FeedbackType`, `FeedbackSettings`, `EligibilityErrorInfo`, `OrderItemAttribute` and `ShippingLabelCarrierRate` are not part of this model. They are small stand-in records. `Decimal` and `NSDecimalNumber` are exact rationals (`real`), and `URL` is a string.
- SwiftTypes.Int64: IDs are bounded to 64 bits by the type, but no arithmetic on them is modelled, so no wrap-around arises.
