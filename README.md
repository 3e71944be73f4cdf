# Category tree bot, modelled in Dafny

This project models the core of a Telegram bot that keeps a single global
tree of named categories. Users change the tree with text commands:

- `/addElement <name>` adds a root.
- `/addElement <parent> <child>` adds a child.
- `/removeElement <name>` deletes a category and its whole subtree.
- `/viewTree` shows an indented text rendering.
- `/download` exports a two-column spreadsheet of names and parent names.
- An upload command exists that would import such a sheet row by row. It is not in the command table, so the bot never dispatches to it: `/upload` gets the unknown-command reply.

Modules, one file each:

- `Categories` (`categories.dfy`) is the store, an arena from id to (name, optional parent id) with a counter for fresh ids. Its invariant `Valid`: every id is below the counter, and every parent link points at a stored category with a smaller id. So there are no orphans and no cycles. A category's `children` are not stored. They are derived from the parent links (`ChildIds`) in ascending id order, which is also the order `findAll` returns.
- `Repository` (`repository.dfy`) is the repository as a class over that state. Its methods are proved against the pure functions of `Categories`.
- `Service` (`service.dfy`) holds the service operations as functions on the store value, the export rows, an append-only `Sheet`, and the `CategoryService` class whose methods perform them.
- `ViewTree` (`viewtree.dfy`) is the text renderer. `Format` is proved equal to the lines of an independent pre-order outline.
- `Commands` (`commands.dfy`) holds `/addElement` and `/removeElement`.
- `Manager` (`manager.dfy`) is the token table and both dispatch overloads.
- `Bot` (`bot.dfy`) is `onUpdateReceived`: tokenising with Java `String.split` semantics, and routing.
- `Upload` (`upload.dfy`) is the import loop and its properties.
- `Scenario` (`scenario.dfy`) holds worked examples on small concrete stores.
- `Seqs` and `Wrappers` are helpers: flattening and sums of sequences, `Option` and `Result`.

Where the code behaves differently from what a reader might expect, the model follows the code:

- A reader might expect `/viewTree` and the export to walk from the roots, one line or row per category. The code walks from every category `findAll` returns (`viewTree` is `findAll`). So a category at depth d appears d + 1 times.
  - `Categories.FindAllTrees` states, for arbitrary stores, that there is one populated tree per stored category, roots and non-roots alike. The d + 1 count itself is not proved (see "## Left out").
  - `Scenario.ViewTreeShowsChildTwice` and `Scenario.ExportShowsChildTwice` show it on a root with one child.
  - `Scenario.TreesWithout` shows it on a root with two children, one of them removed.
- Export and import are not inverses. The import reads the header row as data and looks up "Parent Name" as a parent. An exported root's "Root" parent cell is also looked up as a category name. `Upload.ExportedSheetFailsOnHeader` proves that importing an exported sheet fails on its first row, unless some category is named "Parent Name".
- The reply after adding a root has no closing quote. The model keeps the text as written.

## Model

| member | source | states |
|---|---|---|
| Categories.SetParent | src/main/java/com/pandev/telbot/model/Category.java:64-66 | The result has exactly the given parent link and keeps the name. |
| Categories.ChildIds | src/main/java/com/pandev/telbot/model/Category.java:47-48 | The children of `p` are exactly the stored categories whose parent is `p`, in strictly ascending id order. |
| Categories.SavedHasNoChildren | src/main/java/com/pandev/telbot/model/Category.java:48-57 | A freshly saved category has no children. |
| Categories.FindByName | src/main/java/com/pandev/telbot/repository/CategoryRepository.java:24 | Empty exactly when no stored category has that name. Otherwise the id of a stored category with that name, the lowest such id. |
| Categories.SaveFacts | src/main/java/com/pandev/telbot/repository/CategoryRepository.java:16 | `save` assigns the fresh id. It keeps the invariant, adds exactly one key and leaves every existing category unchanged. |
| Categories.SaveAppendsToFindAll | src/main/java/com/pandev/telbot/repository/CategoryRepository.java:32-33 | After `save`, `findAll` lists the earlier categories and then the new one. |
| Categories.AllIdsComplete | src/main/java/com/pandev/telbot/repository/CategoryRepository.java:32-33 | `findAll` lists every stored category exactly once. |
| Categories.FindAllTrees | src/main/java/com/pandev/telbot/repository/CategoryRepository.java:32-33 | `findAll` yields one populated tree per stored category, roots and non-roots alike. Tree i is the tree of the i-th id. |
| Categories.BuildTree | src/main/java/com/pandev/telbot/repository/CategoryRepository.java:32-33 | A populated tree carries the category's id and name, and its i-th child is the populated tree of the i-th stored child, in ascending id order. |
| Categories.BuildTreeIsSubtree | src/main/java/com/pandev/telbot/model/Category.java:47-48 | The ids in a category's populated tree are exactly the stored categories whose ancestor chain reaches it. |
| Categories.SubtreeStep | src/main/java/com/pandev/telbot/model/Category.java:47 | A category is in the subtree of `a` iff it is `a`, or in the subtree of one of `a`'s children. |
| Categories.DeleteFacts | src/main/java/com/pandev/telbot/repository/CategoryRepository.java:40 | `delete` keeps the invariant, so no orphan is left. It removes `a` and exactly its descendants, including every child, and keeps all other categories unchanged. |
| Categories.DeleteAbsent | src/main/java/com/pandev/telbot/repository/CategoryRepository.java:40 | Deleting an id that is not stored changes nothing. |
| Categories.EmptyStoreValid | src/main/java/com/pandev/telbot/repository/CategoryRepository.java:32-33 | The empty store satisfies the invariant, and `findAll` on it is empty. |
| Repository.CategoryRepository.constructor | src/main/java/com/pandev/telbot/repository/CategoryRepository.java:16 | A new repository is empty and valid. |
| Repository.CategoryRepository.Save | src/main/java/com/pandev/telbot/repository/CategoryRepository.java:16 | Returns the fresh id, which was not stored before. The new state is the old one with the category added under that id. |
| Repository.CategoryRepository.FindByName | src/main/java/com/pandev/telbot/repository/CategoryRepository.java:24 | Empty exactly when no category has the name. Otherwise a stored category with that name. |
| Repository.CategoryRepository.FindAll | src/main/java/com/pandev/telbot/repository/CategoryRepository.java:32-33 | The populated trees of the current state, one per stored category. |
| Repository.CategoryRepository.Delete | src/main/java/com/pandev/telbot/repository/CategoryRepository.java:40 | The new state is the old one less the subtree of the id. The invariant is kept. |
| Service.AddCategoryOp | src/main/java/com/pandev/telbot/service/CategoryService.java:54-57 | Exactly one new parentless category with the name, under a fresh id, with no uniqueness check. All others are unchanged. |
| Service.AddChildOp | src/main/java/com/pandev/telbot/service/CategoryService.java:66-75 | True iff some category has the parent name. On false the store is unchanged. On true there is exactly one new category with the child name, whose parent is a stored category with the parent name. |
| Service.RemoveCategoryOp | src/main/java/com/pandev/telbot/service/CategoryService.java:83-90 | True iff some category has the name. On false the store is unchanged. On true the result is the deletion of the subtree of a category with that name. |
| Service.FindCategoryByNameOp | src/main/java/com/pandev/telbot/service/CategoryService.java:98-102 | Fails with "Category not found" exactly when no category has the name. Otherwise it is a stored category with that name. |
| Service.SaveCategoryOp | src/main/java/com/pandev/telbot/service/CategoryService.java:161-169 | Fails with "No value present" exactly when a parent name is given and matches nothing, before saving. With no parent it is `addCategory`; with a found parent it is `addChild`. |
| Service.SaveCategoryGrows | src/main/java/com/pandev/telbot/service/CategoryService.java:161-169 | A successful `saveCategory` adds exactly one category, with the name, under a fresh id, and keeps every existing one. |
| Service.CategoryRowsSize | src/main/java/com/pandev/telbot/service/CategoryService.java:144-153 | `addCategoryToSheet` writes one row per category of the subtree. The first is the category's own row, with the parent name or "Root". |
| Service.ChildRowAt | src/main/java/com/pandev/telbot/service/CategoryService.java:149-151 | Child i's row comes right after the rows of the children before it, and names the immediate parent. |
| Service.ExportSize | src/main/java/com/pandev/telbot/service/CategoryService.java:117-125 | Row 0 is the header ("Category Name", "Parent Name"). It is followed by one row per category of each exported tree. |
| Service.ExportRootRow | src/main/java/com/pandev/telbot/service/CategoryService.java:123-125 | Every category `findAll` returns gets a "Root" row of its own, right after the rows of the trees before it. |
| Service.Sheet.CreateRow | src/main/java/com/pandev/telbot/service/CategoryService.java:145 | A row is created only at the next free row number, so rows are contiguous and none is overwritten. |
| Service.CategoryService.ViewTree | src/main/java/com/pandev/telbot/service/CategoryService.java:45-47 | `viewTree` returns what `findAll` returns. |
| Service.CategoryService.AddCategory | src/main/java/com/pandev/telbot/service/CategoryService.java:54-57 | The repository's new state is `AddCategoryOp` of the old one. |
| Service.CategoryService.AddChild | src/main/java/com/pandev/telbot/service/CategoryService.java:66-75 | The new state and the answer are `AddChildOp` of the old state. |
| Service.CategoryService.RemoveCategory | src/main/java/com/pandev/telbot/service/CategoryService.java:83-90 | The new state and the answer are `RemoveCategoryOp` of the old state. |
| Service.CategoryService.FindCategoryByName | src/main/java/com/pandev/telbot/service/CategoryService.java:98-102 | Its result is `FindCategoryByNameOp` on the current state, so it fails with "Category not found" exactly when no category has the name, and otherwise gives a category with that name. Nothing changes. |
| Service.CategoryService.SaveCategory | src/main/java/com/pandev/telbot/service/CategoryService.java:161-169 | Succeeds exactly when `SaveCategoryOp` does, with its new state. A failure carries its message and leaves the store unchanged. |
| Service.CategoryService.AddCategoryToSheet | src/main/java/com/pandev/telbot/service/CategoryService.java:144-153 | Appends exactly the rows of the subtree to the sheet and returns the next free row number. |
| Service.CategoryService.GenerateCategoryTreeExcel | src/main/java/com/pandev/telbot/service/CategoryService.java:110-125 | The sheet rows are the header and then the rows of every category `findAll` returns, each with a null parent. |
| ViewTree.IndentSpaces | src/main/java/com/pandev/telbot/command/ViewTreeCommand.java:55 | The indent of level l is 2·l spaces. |
| ViewTree.LineShape | src/main/java/com/pandev/telbot/command/ViewTreeCommand.java:55 | A category's line is the indent of its level, "- ", the name and a newline. |
| ViewTree.FormatIsOutline | src/main/java/com/pandev/telbot/command/ViewTreeCommand.java:53-60 | `formatCategory(t, l)` is the lines of the pre-order outline of `t` from level l, joined. |
| ViewTree.OutlineSize | src/main/java/com/pandev/telbot/command/ViewTreeCommand.java:53-60 | The outline has exactly one entry per category of the subtree, and the first is `t` itself at level l. |
| ViewTree.OutlineLevels | src/main/java/com/pandev/telbot/command/ViewTreeCommand.java:56-58 | Every entry of the outline is at level l or deeper. |
| ViewTree.RenderEmpty | src/main/java/com/pandev/telbot/command/ViewTreeCommand.java:39-43 | An empty store renders as exactly "Категории:\n". |
| ViewTree.RenderStartsWithTitle | src/main/java/com/pandev/telbot/command/ViewTreeCommand.java:39 | Every rendering begins with "Категории:\n". |
| ViewTree.ViewTreeCommand.Execute | src/main/java/com/pandev/telbot/command/ViewTreeCommand.java:37-44 | The reply is the title and then each tree of `findAll` rendered from level 0, in order. The store is not changed. |
| ViewTree.ViewTreeCommand.FormatCategory | src/main/java/com/pandev/telbot/command/ViewTreeCommand.java:53-60 | The loop with its recursive calls builds exactly `Format(t, l)`. |
| Commands.AddElement | src/main/java/com/pandev/telbot/command/AddElementCommand.java:31-48 | One argument adds a root and answers the root text. Two arguments add a child under a category with the parent name when one exists, else the store is unchanged and the reply is the not-found text. Any other count answers the usage text and changes nothing. |
| Commands.ChildRepliesDiffer | src/main/java/com/pandev/telbot/command/AddElementCommand.java:42-44 | The two two-argument replies are different texts, so the reply tells success from failure. |
| Commands.RemoveElement | src/main/java/com/pandev/telbot/command/RemoveElementCommand.java:33-43 | One argument that names a category deletes its subtree and answers the removed text. One that names nothing answers not-found and changes nothing. Any other count answers the usage text and changes nothing. |
| Commands.RemoveElementDropsSubtree | src/main/java/com/pandev/telbot/command/RemoveElementCommand.java:34-38 | A successful removal deletes a category with the name and exactly its descendants, and keeps all others unchanged. |
| Commands.AddElementCommand.Execute | src/main/java/com/pandev/telbot/command/AddElementCommand.java:31-48 | The new state and the reply are `AddElement` of the old state and the arguments. |
| Commands.RemoveElementCommand.Execute | src/main/java/com/pandev/telbot/command/RemoveElementCommand.java:33-43 | The new state and the reply are `RemoveElement` of the old state and the arguments. |
| Manager.Lookup | src/main/java/com/pandev/telbot/command/CommandManager.java:47 | `commands.get`: empty exactly when the token is not a key. |
| Manager.DispatchArgs | src/main/java/com/pandev/telbot/command/CommandManager.java:46-53 | An unregistered token answers the unknown-command text and changes nothing. Each registered token delegates to its command's outcome. Only `/addElement` and `/removeElement` change the store. |
| Manager.RegisteredTokens | src/main/java/com/pandev/telbot/command/CommandManager.java:31-37 | Exactly five tokens are registered, each to its own command. `/upload` and a differently cased `/viewtree` are not registered. |
| Manager.CommandManager.constructor | src/main/java/com/pandev/telbot/command/CommandManager.java:31-37 | The table the successive puts build is the registered table, and every command shares the one service. |
| Manager.CommandManager.ExecuteCommand | src/main/java/com/pandev/telbot/command/CommandManager.java:46-53 | The new state and the reply are `DispatchArgs` for the looked-up command. |
| Manager.CommandManager.ExecuteCommandUpdate | src/main/java/com/pandev/telbot/command/CommandManager.java:62-69 | A registered token answers its command's update outcome. Any other token answers the unknown-command text. |
| Bot.PiecesJoin | src/main/java/com/pandev/telbot/telegrambot/CategoryBot.java:44 | Splitting at every space loses nothing: joining the pieces with spaces gives back the text, and no piece contains a space. |
| Bot.DropTrailingEmpty | src/main/java/com/pandev/telbot/telegrambot/CategoryBot.java:44 | The result is a prefix that drops only empty trailing strings, and it does not end in an empty string. |
| Bot.JavaSplitFacts | src/main/java/com/pandev/telbot/telegrambot/CategoryBot.java:44 | `split(" ")` is `[s]` without a space, so `[""]` for the empty string. Otherwise it is a prefix of `Pieces(s)`, the pieces between spaces, the dropped pieces are all empty and the last element kept is not empty. No element contains a space. |
| Bot.FirstSpace | src/main/java/com/pandev/telbot/telegrambot/CategoryBot.java:42 | The position of the first space, absent exactly when there is none. |
| Bot.Tokenise | src/main/java/com/pandev/telbot/telegrambot/CategoryBot.java:42-44 | The command is the text before the first space, or the whole text. The arguments are empty without a space, else the split of the remainder. |
| Bot.TrailingSpaceGivesEmptyArgument | src/main/java/com/pandev/telbot/telegrambot/CategoryBot.java:44 | A command followed by one space gets exactly one empty argument. |
| Bot.HandleUpdate | src/main/java/com/pandev/telbot/telegrambot/CategoryBot.java:38-55 | A reply is sent exactly when the update has a text message, and to that message's chat. No text means no change. `/download` goes to the update overload; every other token goes to the argument overload. |
| Bot.CategoryBot.constructor | src/main/java/com/pandev/telbot/telegrambot/CategoryBot.java:27-30 | The bot's manager holds the registered table over the given service. |
| Bot.CategoryBot.OnUpdateReceived | src/main/java/com/pandev/telbot/telegrambot/CategoryBot.java:38-55 | The new state and the message sent are `HandleUpdate` of the old state and the update. |
| Upload.Import | src/main/java/com/pandev/telbot/command/UploadCommand.java:39-58 | The import keeps the invariant. Its only failure is "No value present". |
| Upload.Kept | src/main/java/com/pandev/telbot/command/UploadCommand.java:44-46 | Exactly the rows that are not skipped: none of the result is skipped, and every row that is not skipped occurs in it as often as in the input. |
| Upload.ImportIgnoresSkipped | src/main/java/com/pandev/telbot/command/UploadCommand.java:44-46 | Rows whose first cell is missing or empty have no effect. |
| Upload.ImportAppend | src/main/java/com/pandev/telbot/command/UploadCommand.java:39-58 | Rows are handled in order. After a failure no later row is looked at. |
| Upload.ImportCreatesOnePerRow | src/main/java/com/pandev/telbot/command/UploadCommand.java:39-55 | A successful import creates exactly one category per kept row and keeps every earlier one. |
| Upload.ImportKeepsEarlier | src/main/java/com/pandev/telbot/command/UploadCommand.java:56-58 | Every earlier category survives an import, failed or not. Nothing saved is rolled back. |
| Upload.FailsAtShift | src/main/java/com/pandev/telbot/command/UploadCommand.java:39-53 | A failure at row j of the rest, after row 0 was handled, is a failure at row j + 1. |
| Upload.ImportFailsAtFirst | src/main/java/com/pandev/telbot/command/UploadCommand.java:56-58 | A failed import failed at a kept row: all rows before it succeeded, `saveCategory` failed on it, and the store they left is the result. |
| Upload.AsUploadRows | src/main/java/com/pandev/telbot/command/UploadCommand.java:41-49 | Reads each exported row as a row with both cells present. |
| Upload.ExportedSheetFailsOnHeader | src/main/java/com/pandev/telbot/command/UploadCommand.java:39 | Importing an exported sheet fails on the header row and changes nothing, unless a category is named "Parent Name". |
| Upload.UploadSpec | src/main/java/com/pandev/telbot/command/UploadCommand.java:26-63 | Without a document the reply is the attach text and nothing changes. A read failure answers the error text with its message and changes nothing. Otherwise the new state is the import's, the reply is the success text exactly when no row failed, and a failed row answers the error text with "No value present". |
| Upload.SuccessIsNoError | src/main/java/com/pandev/telbot/command/UploadCommand.java:55-58 | The success reply differs from every error reply. |
| Upload.UploadCommand.ExecuteArgs | src/main/java/com/pandev/telbot/command/UploadCommand.java:21-23 | Answers the fixed instruction and does nothing else. |
| Upload.UploadCommand.ExecuteUpdate | src/main/java/com/pandev/telbot/command/UploadCommand.java:26-63 | The loop calls `saveCategory` once per kept row and stops at the first failure. The new state and the reply are `UploadSpec`. |
| Scenario.CommandsBuildStores | src/main/java/com/pandev/telbot/service/CategoryService.java:54-75 | `/addElement A` and then `/addElement A B` build the store with root A and its child B. |
| Scenario.ViewTreeShowsChildTwice | src/main/java/com/pandev/telbot/command/ViewTreeCommand.java:40-42 | For that store `/viewTree` answers "Категории:\n- A\n  - B\n- B\n": B appears under A and again on its own. |
| Scenario.ExportShowsChildTwice | src/main/java/com/pandev/telbot/service/CategoryService.java:123-125 | The export of that store is the header, (A, Root), (B, A) and (B, Root). |
| Scenario.ChildIsRemoved | src/main/java/com/pandev/telbot/service/CategoryService.java:83-90 | In a root with two children, removing the first child (a name of its own) deletes that child alone. |
| Scenario.TreesWithout | src/main/java/com/pandev/telbot/service/CategoryService.java:45-47 | After that removal, `viewTree` yields the root with its single remaining child, and then that child again. |

## Left out

- I/O and transport are not modelled: the HTTP `downloadFile`, `setCategoryBot`, `sendMessage`, `getBotUsername` and `getBotToken`. `OnUpdateReceived` returns the message instead of sending it.
- Spreadsheet framing is not modelled: Apache POI workbook creation, `autoSizeColumn` and `write`, and the parsing of an uploaded file into rows. The export yields its rows. The import takes the rows read, or the message of the read failure, as a parameter.
- `DownloadCommand` is not modelled beyond its argument-overload constant. What its update overload answers is a parameter of `Bot.CategoryBot.OnUpdateReceived` and `Manager.CommandManager.ExecuteCommandUpdate`.
- The help command and the `Command` interface are not part of this model. The help text is a parameter of the manager, and the table maps tokens to command kinds instead of command objects.
- Manager.CommandManager.ExecuteCommandUpdate: a registered command's update overload is taken to answer the given outcome. In practice only `/download` reaches it from the bot.
- Categories.FindByName: with several categories of one name, the lowest id is returned. A Spring Data derived query would throw in that case instead.
- The order of `findAll` and of `children` is taken to be ascending id, which is insertion order.
- Service.Sheet.CreateRow: requires the next free row number. POI would replace an existing row instead.
- Service.CategoryService.AddCategoryToSheet: the Java `int` row number is unbounded here, so overflow past 2^31 − 1 rows is not modelled.
- Commands.AddElementCommand.Execute: "at most one service call" is not stated as a count of calls. The contract fixes the new state as the result of at most one service operation.
- Categories.FindAllTrees: the d + 1 occurrences of a category at depth d are shown in the scenarios and through the per-category trees, not proved as a count.
- Upload.UploadSpec: a `null` exception message, non-string cells and exceptions other than the parent lookup's are not modelled.
- JPA mechanics are not modelled: lazy loading, transactions and flush timing. Each service operation is atomic on the store value.
- Concurrency is not modelled: updates are handled one at a time.
