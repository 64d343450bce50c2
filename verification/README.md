# Manager, deployers and oracle of modde: a verified model

modde installs and switches sets of game modifications. This project models the
parts of it whose correctness a user's files and numbers depend on, and proves
what each of them is for. Every theorem is over all inputs, all runs or all
reachable states; nothing here was executed.

`dafny verify dfyconfig.toml` checks the whole project.

| modules | what they are about |
|---|---|
| `Images`, `Leaves` | directory trees, the effect of each primitive on them, and its laws |
| `Transaction`, `Committing` | commit and rollback of a list of file operations: journal, backups, made directories, seeds, and outside writers between any two steps |
| `Preparation`, `Declarations`, `Manager` | from a declaration to operations that never overlap; what applying leaves, field by field; apply converges |
| `Payloads` | building a tree from a listing, and flattening it |
| `Config` | rewriting the managed `SET` lines of a configuration |
| `Json`, `Layouts`, `Documents`, `LauncherSettings` | the hand-written JSON scanner: what it takes of all texts, what it finds in every document of the grammar, and the edit that uses it |
| `Aggregates` | the pair table updated batch by batch against the recomputation from all events |
| `HotDeploy` | planned patches of a symlink farm, executed on a directory tree |
| `Deployment` | merging a tree into a target without regard to case |
| `Bisect`, `RateLimit`, `ByteCache` | three small algorithms and their exact bounds |
| `Bytes`, `Results`, `Ordering`, `Sequences` | bytes, optional results, the order of keys, sequences |

How the parts are modelled:

- A directory tree is an `Image`: missing, a file, or a directory of named
  images. A primitive (a rename that does not replace, a hard link, `mkdir`, the
  removal of an empty directory, a journal write, a read) either takes effect or
  fails without one. In `Committing` each primitive may fail at any time, and,
  unless `quiet`, others may change the tree between any two of them.
- Code that updates state in place is a class or a method with loops, proved
  against a specification function; the theorems are about those functions.
- Entries of a directory listing come in an arbitrary order where the order is
  the file system's, and in key order where the source sorts.

What the proofs found, where the code does less than it is for:

- **A complete commit can be reported as an error.** If only the last journal
  write fails, `apply` returns an error although every operation is in place and
  nothing is rolled back: `AppliedUnrecorded`, with its exact condition in
  `Committing.Commit.CommitOrRollBack`.
- **An escaped second spelling hides an edit of the launcher settings.** The
  scanner compares raw key bytes, a JSON reader decodes them:
  `LauncherSettings.AliasHidesEdit`, with the exact condition in
  `LauncherSettings.EditDenotes`.
- **The byte cache can leak its whole budget.** What the map of capacity 1024
  drops by itself stays counted: `ByteCache.DeadForGood` is a run after which
  nothing that has bytes is ever kept; `ByteCache.NoLeakExactly` says exactly
  which runs leak, `ByteCache.InsertedPresent` exactly when an insertion is kept.
- **Lowering the cohort minimum does not bring rows back** until their pairs are
  seen again: `Aggregates.LoweredMinimum` is one, `Aggregates.QueriedAt` says
  exactly which.
- **A bisection with dependencies can stop making progress**, exactly when the
  second half of the suspects needs all of the first: `Bisect.StuckMeans`,
  `Bisect.RoundKeeps`, and `Bisect.StuckExample`.
- **Of two staged files that differ only in case one is lost** without a word:
  `Deployment.OneLost`; staged directories that do are merged
  (`Deployment.LandedFound`).
- **A patch whose new links lie below one another cannot work out**:
  `HotDeploy.PatchCorrect` is an equivalence.

## Model

| member | source | states |
|---|---|---|
| `Committing.Commit.Apply` | crates/modde-manager/src/transaction.rs:146-306 | It starts only if the game is stopped and the sources are unchanged, at both checks. With nobody else writing: an apply that did not start changed nothing; one that started found everything as prepared; one that got through has converged, even if its last journal write failed; one that failed restored the tree it found exactly, made directories included, unless a primitive failed during the rollback itself, and it never refused to. From a tree that fits the preparation, with the game stopped and the sources unchanged, an apply in which no primitive fails is applied, and one that fails because a single primitive did is undone completely. Whoever else writes: applied means that each operation has its steps on the ledger, or is a seed whose file was there at some step; restored means that each committed operation and each made directory has the steps that undo it; the journal says committed or rolled back only then, and after a failure it says which of the two recoveries it was, unless writing that failed too |
| `Committing.Commit.CommitOrRollBack` | crates/modde-manager/src/transaction.rs:187-305 | The same from the first journal record on, with the failures counted during the rollback fewer than all failures. A complete commit is reported as an error exactly when the journal does not say that it is done, which takes a failing journal write |
| `Committing.Commit.RollBackAndNote` | crates/modde-manager/src/transaction.rs:246-285 | The rollback, and the record of it: `RollbackDone` exactly after a complete one, `RollbackFailed` exactly after any other, unless writing it fails |
| `Committing.Commit.CommitAll` | crates/modde-manager/src/transaction.rs:187-247 | Operations are committed in order up to the first failure; then everything done so far can be undone, a half-moved original included. With nobody else writing and nothing in the way at the start, only a failing primitive stops it. Whoever else writes: success means that each operation is committed, with its steps on the ledger, or is a seed whose file was there at some step |
| `Committing.Commit.CommitOne` | crates/modde-manager/src/transaction.rs:202-244 | One operation: skipped only if it is a seed whose file was there at some step, committed with its steps on the ledger, or broken off in a state that can be undone; no `rolled-back` slot and no slot of another operation changes. With nobody else writing and nothing in the way at the start, it breaks off only if a primitive fails |
| `Committing.Commit.Inspect` | crates/modde-manager/src/transaction.rs:202-209 | The re-read before a commit: a seed whose file is there is passed over, and anything that is not as prepared stops the commit |
| `Committing.Commit.EnterDirectory` | crates/modde-manager/src/files.rs:92-126 | One component of the way to a destination is entered, or made and noted as made; the notes stay exactly the directories to remove. With nobody else writing, success means the directory is there, and only a failing primitive prevents it |
| `Transaction.NoFileAbove` | crates/modde-manager/src/files.rs:92-126 | When the turn of an operation comes, what lies above it is no file: it is a directory above a committed one, or was made, or is as at the start |
| `Committing.Commit.Reach` | crates/modde-manager/src/transaction.rs:210-212 | The destination has a parent directory and still holds what it held, and the journal lists the directories made, before anything is moved |
| `Committing.Commit.CommitSeed` | crates/modde-manager/src/transaction.rs:215-225 | A hard link that finds the name taken is a skip only if a file is there when it is read again; otherwise the seed is committed or the commit breaks off |
| `Committing.Commit.BackUp` | crates/modde-manager/src/transaction.rs:227-231 | The original goes to `old-i` and is pending from then on, also when the journal write after it fails |
| `Committing.Commit.PlacePayload` | crates/modde-manager/src/transaction.rs:232-240 | The declared payload goes into the free place, whoever else writes; if it cannot, the original is moved home or stays pending at `old-i` |
| `Committing.Commit.NoteCommitted` | crates/modde-manager/src/transaction.rs:242-244 | The operation counts as committed before the journal says so, so a failing journal write loses nothing |
| `Committing.Commit.UndoCommitted` | crates/modde-manager/src/transaction.rs:257-271 | With nobody writing meanwhile, the rollback loop does exactly what `Transaction.Undo` says, refusal included, unless a primitive fails; whoever writes, a refused destination does hold something else than its payload, and success means that each committed operation was taken back |
| `Committing.Commit.RemoveCreated` | crates/modde-manager/src/transaction.rs:272-275 | Removing the made directories in reverse gives back the start, unless a primitive fails; success means that each was removed |
| `Committing.Commit.Rollback` | crates/modde-manager/src/transaction.rs:249-277 | A rollback after a commit that nobody disturbed, whose own steps succeed, never refuses and leaves the tree the commit began with. Whatever happened during the commit, if nothing is half-moved and nobody writes now, it refuses exactly when `Transaction.Undo` does, and in that state. Whoever writes: a refused destination does hold something else than its payload, and success means that the ledger has the steps that undo each committed operation, each made directory and a half-moved original |
| `Committing.Commit.Revalidate` | crates/modde-manager/src/transaction.rs:123-140 | With nobody else writing it succeeds exactly if every destination can be read and is as prepared or is a seed that exists, unless a primitive fails |
| `Committing.Commit.Begin` | crates/modde-manager/src/transaction.rs:154-186 | Staging and the second revalidation leave the tree alone; whoever else writes, every payload is at its `new-i` when the commit starts; with nobody else writing, only a failing primitive or an unmet check keeps a fitting commit from starting. It never starts unless the game is stopped and the sources are unchanged after staging |
| `Transaction.StepKeepsFiles` | crates/modde-manager/src/files.rs:168-194 | No step of commit or rollback overwrites or deletes file content: each file is afterwards, unchanged, where the step took it |
| `Transaction.StepKeepsFilesApart` | crates/modde-manager/src/files.rs:168-194 | No step takes two files to one place |
| `Transaction.RunKeepsFiles` | crates/modde-manager/src/transaction.rs:187-277 | Over any run of steps every file that was there is there at the end, at a place the steps determine |
| `Transaction.BackupSurvives` | crates/modde-manager/src/transaction.rs:227-271 | With arbitrary outside changes between steps, in every reachable state: what the commit moved away for operation i is at `old-i`, or a step has put it back at its destination |
| `Transaction.PayloadLands` | crates/modde-manager/src/transaction.rs:215-241 | With arbitrary outside changes between steps: what a commit puts at a destination is the declared payload, and nothing was there |
| `Transaction.CommittedConverges` | crates/modde-manager/src/transaction.rs:187-247 | A commit that got through leaves each payload at its destination, existing seed files as they were, and nothing else changed but directories above destinations |
| `Transaction.UndoLast` | crates/modde-manager/src/transaction.rs:257-271 | Taking a payload out and its backup in undoes the commit of one operation exactly |
| `Transaction.UndoRestores` | crates/modde-manager/src/transaction.rs:249-277 | Rollback is exact: it never refuses and leaves only the made directories to remove |
| `Transaction.CutMeaning` | crates/modde-manager/src/transaction.rs:257-261 | Where a rollback stops: at the last committed destination that no longer holds its payload, and only there |
| `Transaction.UndoElsewhere` | crates/modde-manager/src/transaction.rs:257-271 | A refused rollback leaves that destination, all earlier ones, and all that no later operation overlaps untouched |
| `Transaction.UndoKeepsBackups` | crates/modde-manager/src/transaction.rs:264-270 | The originals of the operations it leaves alone are still at their `old-i` |
| `Transaction.UndoReaches` | crates/modde-manager/src/transaction.rs:257-271 | Every later operation has been undone: its destination holds what was backed up, or nothing |
| `Transaction.UndoLeavesDirectories` | crates/modde-manager/src/transaction.rs:257-275 | A refused rollback removes no directory outside the destinations it undid, so those the commit made are left |
| `Transaction.RefusedShape` | crates/modde-manager/src/transaction.rs:249-277 | The shape of a rollback whose own steps succeed: it refuses exactly if some committed destination no longer holds its payload, and at the last such one; all later operations are undone; that one and all earlier ones are untouched, with the originals they replaced at their `old-i`; the made directories are left |
| `Images.LookupReplaceInside` | crates/modde-manager/src/files.rs:9-21 | What a path and everything under it read as after an image was put there |
| `Images.LookupReplaceOther` | crates/modde-manager/src/files.rs:9-21 | Putting an image at a path leaves every path that does not overlap it as it was |
| `Images.ReplaceSelf` | crates/modde-manager/src/files.rs:168-194 | Putting back what was there restores the whole tree |
| `Images.Extensional` | crates/modde-manager/src/files.rs:9-21 | Two trees that show the same at every path are the same tree |
| `Preparation.Prepare` | crates/modde-manager/src/transaction.rs:309-464 | The procedure, with its list of destinations and of operations grown in place, is the specification `Prepared`, refusals included; when that accepts is `PreparedAccepts`, what it asks for `NothingToDo` |
| `Preparation.PreparedAccepts` | crates/modde-manager/src/transaction.rs:309-464 | A declaration is accepted exactly if all checks pass, each destination is relative, unprotected and apart from the others, each step is acceptable by itself, and no source overlaps a destination |
| `Preparation.AddedAccepts` | crates/modde-manager/src/transaction.rs:64-81 | One image can go to a path exactly if the path can be read and holds nothing or a thing of the same kind |
| `Preparation.SeededAccepts` | crates/modde-manager/src/transaction.rs:83-98 | A seed tree is accepted exactly if nothing it would add a file at, or go down into, is of the other kind or cannot be read |
| `Preparation.SeededNothing` | crates/modde-manager/src/transaction.rs:83-98 | A seed tree asks for nothing exactly if there is a file wherever it has one |
| `Preparation.NothingToDo` | crates/modde-manager/src/transaction.rs:309-464 | An accepted declaration asks for no operation exactly if the tree is as declared: each addon directory equals its checkout, each configuration renders to itself, each replacing saved variable equals its source, each seeding one and each leaf of a seed tree is a file |
| `Preparation.AppliedAsDeclared` | crates/modde-manager/src/transaction.rs:309-464 | A converged apply leaves the tree as declared |
| `Preparation.PreparedAreValid` | crates/modde-manager/src/transaction.rs:42-61 | Prepared operations never overlap, across addons, configurations, saved variables and the leaves of seed trees; each lies at or under a registered, unprotected relative destination that overlaps no source; a seed replaces nothing |
| `Preparation.PreparedAreFeasible` | crates/modde-manager/src/transaction.rs:64-81 | Prepared operations fit the tree they were prepared for: everything above a destination is free, and the destination is as recorded |
| `Preparation.SeededUnderOne` | crates/modde-manager/src/transaction.rs:83-98 | The leaves of a recursively expanded seed tree are apart from each other and all under its destination |
| `Preparation.ConfigConverges` | crates/modde-manager/src/transaction.rs:64-81 | A configuration that was rendered and applied renders to itself, so it asks for no operation |
| `Preparation.SeededConverges` | crates/modde-manager/src/transaction.rs:83-98 | A seed tree that was applied asks for no operation |
| `Preparation.ApplyConverges` | crates/modde-manager/src/transaction.rs:309-464 | After a converged apply each item has arrived, a seed only where no file was, and preparing the same declaration again is accepted, with the same destinations and no operations |
| `Preparation.OwnOperations` | crates/modde-manager/src/transaction.rs:64-98 | The operations of each item are among all, and all others are apart from its destination |
| `Declarations.AcceptedMeans` | crates/modde-manager/src/transaction.rs:309-464 | Field by field of a declaration: it is accepted exactly if the addons are locked at what their checkouts hold; each addon directory at `Interface/AddOns/target`, each configuration, saved variable and seed tree goes to a relative, unprotected path apart from all others, and fits what is there; and neither the lock, nor a checkout, nor a saved or seeding source overlaps any of these paths below the root |
| `Declarations.AppliedLeaves` | crates/modde-manager/src/transaction.rs:309-464 | After a converged apply each of these places holds what the field declares: the directory of the checkout, the rendered configuration, the saved file or, for a seed, the file that was there; likewise each file of a seed tree |
| `Declarations.NothingToDoMeans` | crates/modde-manager/src/transaction.rs:309-464 | An accepted declaration asks for no operation exactly if each of these places holds it already |
| `Declarations.SavedSeedKept` | crates/modde-manager/src/transaction.rs:64-81 | A seeding saved variable whose file is there is touched by no operation |
| `Declarations.TreeSeedKept` | crates/modde-manager/src/transaction.rs:83-98 | Nor is a file of a seed tree that is there |
| `Declarations.InsideMeans` | crates/modde-manager/src/files.rs:29-40 | A relative path, character by character: at most 128 names, none empty or a dot or two, none with a slash, backslash or colon |
| `Declarations.ProtectedMeans` | crates/modde-manager/src/transaction.rs:46-61 | A protected path has a component that begins with `blizzard_` in any mixture of case |
| `Manager.ApplyDeclaration` | crates/modde-manager/src/transaction.rs:142-144 | Prepare and apply together: accepted exactly as `Declarations.AcceptedMeans` says; not started unless the game is stopped and the sources unchanged, at the second check too if any place lacks what is declared; refused, not started or rolled back leaves the tree as it was; applied means that every place holds what its field of the declaration says, and that preparing again finds nothing to do. If nobody else writes and the checks hold, an accepted declaration is applied if no primitive fails, and applied or undone completely if one does |
| `Payloads.InsertShows` | crates/modde-manager/src/transaction.rs:689-715 | An accepted file shows at its path, its directories show above it, nothing else changes |
| `Payloads.Checkout.InsertAll` | crates/modde-manager/src/transaction.rs:738-764 | The loop over a listing, changing the tree in place, is the fold `Built` |
| `Payloads.BuildExact` | crates/modde-manager/src/transaction.rs:738-764 | Building succeeds exactly when no path is empty, equals or is a prefix of another; the tree then shows exactly the listed files and the directories above them |
| `Payloads.BuildOrderIrrelevant` | crates/modde-manager/src/transaction.rs:738-764 | The tree does not depend on the order of the listing |
| `Payloads.ManifestShows` | crates/modde-manager/src/transaction.rs:481-496 | The inventory has exactly the files of the image, each under its full path with its digest |
| `Payloads.BuildFlatten` | crates/modde-manager/src/transaction.rs:481-496 | Flattening what was built gives back exactly the listed paths and contents |
| `Config.RenderConfig` | crates/modde-manager/src/main.rs:972-1015 | The two passes over lines and keys, appending to one text, are the specification `Rendered` |
| `Config.RewriteLines` | crates/modde-manager/src/main.rs:985-1005 | The first pass: unmanaged lines verbatim, the first line of each managed key rewritten, later ones dropped, and the keys noted |
| `Config.AppendMissing` | crates/modde-manager/src/main.rs:1006-1013 | The second pass: one line for each key not seen, after a newline if the text does not end in one |
| `Config.EscapeOne` | crates/modde-manager/src/main.rs:1022-1040 | The two replacement passes come to escaping character by character |
| `Config.ValueRoundTrip` | crates/modde-manager/src/main.rs:1022-1040 | A rendered value is quoted, and unescaping it gives the declared string, `1` or `0` for a boolean, the digits of a number |
| `Config.RenderFails` | crates/modde-manager/src/main.rs:972-984 | Rendering fails exactly when a key does not begin with an ASCII letter and go on with letters, digits and underscores, or a value is a string with a control character or neither string, boolean nor number |
| `Config.DesiredReadsBack` | crates/modde-manager/src/main.rs:1022-1040 | The value each managed key is given reads as the string declared for it |
| `Config.RenderReadsBack` | crates/modde-manager/src/main.rs:972-1015 | Reading the output back: each managed key has exactly one `SET` line, with its value; all other lines survive in order, byte for byte, up to one newline added to an unterminated last line |
| `Config.SetKeyMeans` | crates/modde-manager/src/main.rs:988-993 | A line sets a key exactly if its first field is `SET` and its second the key, fields being separated by blanks |
| `Config.KeptInPlace` | crates/modde-manager/src/main.rs:987-1006 | The first pass works in place: of the lines that set a managed key the first of each key survives and no other, every other line survives, in order; each stands where the line was, as it was or as the assignment that ends as it did |
| `Config.RenderedInPlace` | crates/modde-manager/src/main.rs:985-1015 | The whole output: the surviving lines in place, then only assignments, with at most one newline put between |
| `Config.RenderIdempotent` | crates/modde-manager/src/main.rs:972-1015 | Rendering twice is rendering once |
| `Json.ScanString` | crates/modde-manager/src/wiring.rs:3134-3162 | The cursor loop over a string literal, in bounds and terminating on every input, is the specification `StringEnd` |
| `Json.ScanValue` | crates/modde-manager/src/wiring.rs:3164-3200 | Skipping a value is the specification `ValueEnd`, on every input |
| `Json.ScanNested` | crates/modde-manager/src/wiring.rs:3173-3192 | The bracket counter never goes below zero and ends where `NestedEnd` says |
| `Json.ScanTopLevel` | crates/modde-manager/src/wiring.rs:3130-3266 | The whole scanner is the specification `TopLevelSpan`, on every input, malformed or not |
| `Layouts.ScannerTakes` | crates/modde-manager/src/wiring.rs:3130-3266 | On every text, JSON or not: the scanner finds a span, or finds none, exactly if the text is laid out as an object of members with at most one of that name, a string, and then just that one; so nothing may follow the last brace, and no comma, colon, quote or brace may be missing |
| `Layouts.StringEndMeans` | crates/modde-manager/src/wiring.rs:3134-3162 | A string ends exactly at the first quote after an even number of backslashes, if each escaped `u` before it has its four hexadecimal digits |
| `Documents.NestedValue` | crates/modde-manager/src/wiring.rs:3173-3192 | Inside brackets every well-formed value is passed over at the same depth |
| `Documents.ScannerFinds` | crates/modde-manager/src/wiring.rs:3130-3266 | On every well-formed object document the scanner returns what the document, read member by member, has under that name |
| `Documents.ScannerCorrect` | crates/modde-manager/src/wiring.rs:3130-3266 | An absent name gives none; a name that occurs once, as a string, gives the span of its text, and replacing that span replaces that text and no other byte; a repeated name or another kind of value is an error; nested names are never found |
| `LauncherSettings.EscapeRoundTrip` | crates/modde-manager/src/wiring.rs:3105-3123 | A serialised string is the text of a literal and decodes to itself |
| `LauncherSettings.EscapePlain` | crates/modde-manager/src/wiring.rs:3105-3123 | A text without quotes, backslashes and control characters is written as it is |
| `LauncherSettings.EscapedNumber` | crates/modde-manager/src/wiring.rs:3084-3100 | An escape of four hexadecimal digits in either case reads as that number in UTF-8; a lone surrogate does not read |
| `LauncherSettings.EscapedPair` | crates/modde-manager/src/wiring.rs:3084-3100 | Two surrogates, the high one first, read as the number they stand for |
| `LauncherSettings.Utf8Means` | crates/modde-manager/src/wiring.rs:3084-3100 | What they read as is the shortest UTF-8 form, which holds exactly the bits of the number |
| `LauncherSettings.SetLauncherClientDirs` | crates/modde-manager/src/wiring.rs:3275-3303 | The procedure with its replaced body, flag and note is the specification `SetDirs` |
| `LauncherSettings.SpliceMember` | crates/modde-manager/src/wiring.rs:3105-3123 | One edit gives the member the wanted text, reports a change exactly if it was another, and touches no other byte |
| `LauncherSettings.SetDirsCorrect` | crates/modde-manager/src/wiring.rs:3275-3303 | It fails exactly unless `clientDir` is there once as a string, and `activeClientDir` likewise if it was the old or the wanted directory and is there; otherwise just those texts are replaced, reported exactly if one differed, and any other active directory is noted and left |
| `LauncherSettings.SetDirsSettles` | crates/modde-manager/src/wiring.rs:3275-3303 | A second edit, handed what the first one wrote, changes nothing |
| `LauncherSettings.EditDenotes` | crates/modde-manager/src/wiring.rs:3105-3123 | In the object the document denotes an edit sets the member, or, exactly when a later member has that name through an escape, changes nothing |
| `LauncherSettings.ReconciledMeans` | crates/modde-manager/src/wiring.rs:3275-3303 | Whether or not `activeClientDir` follows: the edited document denotes the old object with the edited keys set; only an alias after a member can hide its edit |
| `LauncherSettings.ReconcileExact` | crates/modde-manager/src/wiring.rs:3084-3100 | With both old directories read from the document: exactly when reconciling succeeds, with which document, and with which note; `activeClientDir` follows exactly if it reads as `clientDir` does or as the wanted one |
| `LauncherSettings.ReconcileMeans` | crates/modde-manager/src/wiring.rs:3275-3303 | Where no member is an alias of either key, the edited document denotes the old object with `clientDir` set to the wanted directory, and `activeClientDir` exactly when it held the old or the wanted one |
| `LauncherSettings.ReconcileSettles` | crates/modde-manager/src/wiring.rs:3275-3303 | Reconciling the edited document again, from what it then holds, succeeds and changes nothing, aliases or not |
| `LauncherSettings.ReconcileNote` | crates/modde-manager/src/wiring.rs:3275-3303 | And without aliases comes to the same note |
| `LauncherSettings.SingleDenoted` | crates/modde-manager/src/wiring.rs:3084-3100 | What is read from a document: a string member that is there once, without aliases, reads as its decoded text |
| `LauncherSettings.AliasHidesEdit` | crates/modde-manager/src/wiring.rs:3240-3249 | Names are compared as raw bytes: a document with an escaped second spelling of `clientDir`, whose edit succeeds and is not seen by a reader |
| `Aggregates.AggregateEvents` | crates/modde-oracle/src/aggregate.rs:7-60 | The pass over all events, filling two maps of counts, gives exactly the rows of `Aggregated` |
| `Aggregates.UpdatedTally` | crates/modde-oracle/src/aggregate.rs:70-81 | Updating the entry of a group is adding a sighting to the group |
| `Aggregates.CountsMean` | crates/modde-oracle/src/aggregate.rs:62-81 | The crash count counts the crashes, the window is the least and the greatest time |
| `Aggregates.AggregatedTells` | crates/modde-oracle/src/aggregate.rs:7-60 | In terms of the events: a pair of a game has a row exactly if it stands at as many places in the pair lists of the events of the game as the minimum, and at one at least; the row counts these places and those in crashes, has the least and the greatest time among them, and counts all events and all crashes of the game |
| `Aggregates.TouchedPairs` | crates/modde-oracle/src/postgres.rs:95-106 | The touched pairs of a batch: every game, and each pair of it exactly once |
| `Aggregates.Database.UpdateGame` | crates/modde-oracle/src/postgres.rs:108-189 | The three statements for one game; the re-insert never meets a key that is taken, whatever the table held |
| `Aggregates.Database.UpdateAggregates` | crates/modde-oracle/src/postgres.rs:108-192 | All touched games in key order, and no insert fails |
| `Aggregates.Database.Ingest` | crates/modde-oracle/src/postgres.rs:54-88 | Every ingest keeps: the table shows exactly what the ingested batches call for |
| `Aggregates.IngestedShown` | crates/modde-oracle/src/postgres.rs:108-192 | Deleting, recomputing and refreshing only what was touched turns the table for a history into the table for the longer one |
| `Aggregates.ShownIsAggregated` | crates/modde-oracle/src/aggregate.rs:7-60 | With one cohort minimum the table is the recomputation over all events: exactly one row for each pair that reaches it, with the same counts, baseline and window |
| `Aggregates.ShownTells` | crates/modde-oracle/src/postgres.rs:108-192 | In terms of all events ingested: which rows the table shows, and that each counts just the places, crashes, times and events that are there |
| `Aggregates.LastMinMeans` | crates/modde-oracle/src/postgres.rs:108-192 | The minimum that counts for a pair is that of the last batch that has it |
| `Aggregates.QueriedAt` | crates/modde-oracle/src/postgres.rs:194-217 | When the minimum changed between batches, a query agrees with the recomputation about a pair exactly unless the pair has enough sightings now and had too few for the minimum in force when it was last ingested |
| `Aggregates.QueriedIsAggregated` | crates/modde-oracle/src/postgres.rs:194-217 | So a query at a minimum no lower than any before sees the recomputation |
| `Aggregates.LoweredMinimum` | crates/modde-oracle/src/postgres.rs:194-217 | A lowered minimum is not: one event, ingested at minimum 2 and queried at 1 |
| `HotDeploy.PlanPatch` | crates/modde-core/src/hot_deploy.rs:69-94 | The loop over the sorted keys of both maps is `Patch` |
| `HotDeploy.PatchMeans` | crates/modde-core/src/hot_deploy.rs:69-94 | One change for each key whose link differs, with both its links, in strictly increasing key order, and no other |
| `HotDeploy.PrefixFirst` | crates/modde-core/src/hot_deploy.rs:74-78 | In key order a path comes before everything below it |
| `HotDeploy.SplitMeans` | crates/modde-core/src/hot_deploy.rs:69-94 | A key is the one list of components without slashes that joined by slashes gives it |
| `HotDeploy.Staging.ApplyPatch` | crates/modde-core/src/hot_deploy.rs:143-165 | The loop, up to the first change that fails, is `Applied`, the tree it leaves included |
| `HotDeploy.Staging.ApplyChange` | crates/modde-core/src/hot_deploy.rs:147-162 | One change: what is in place goes, whatever it is; a new link gets its directories |
| `HotDeploy.NothingAbove` | crates/modde-core/src/hot_deploy.rs:147-162 | When the turn of a new link comes, nothing is left in its way |
| `HotDeploy.PatchCorrect` | crates/modde-core/src/hot_deploy.rs:143-165 | From any staging that holds exactly the old links, a planned patch succeeds and leaves exactly the new ones if and only if no new link lies below another; files become directories and back |
| `HotDeploy.PatchBack` | crates/modde-core/src/hot_deploy.rs:143-165 | Patching back restores the links |
| `HotDeploy.UntouchedRoots` | crates/modde-core/src/hot_deploy.rs:56-65 | Outside the touched roots nothing changes at all, whether the patch succeeds or not |
| `HotDeploy.CountersMean` | crates/modde-core/src/hot_deploy.rs:30-53 | The three counters count the new, the gone and the different keys, and every change once |
| `Leaves.LinkedLeaf` | crates/modde-core/src/hot_deploy.rs:153-161 | Making a link with its parent directories shows that link and changes no other file |
| `Leaves.ClearedLeaf` | crates/modde-core/src/hot_deploy.rs:168-178 | Removing a path takes exactly the files at and below it |
| `Leaves.OpenMeans` | crates/modde-core/src/hot_deploy.rs:153-157 | `create_dir_all` is possible exactly when no prefix is a file |
| `Deployment.Deployer.CaseMatchChild` | crates/modde-core/src/fs.rs:128-144 | Whatever the order of listing, an entry that matches without regard to case, or the name itself if none does; the one entry if names are distinct |
| `Deployment.FoldMeans` | crates/modde-core/src/fs.rs:133-139 | Matching without regard to case: the same length, and each two characters are equal or ASCII letters that differ by 32 |
| `Deployment.CaseLookupMeans` | crates/modde-core/src/fs.rs:128-144 | What reading without regard to case finds is at the only spelling of the path that is there |
| `Deployment.NoSiblingsMeans` | crates/modde-core/src/fs.rs:128-144 | Free of siblings means: nowhere two names in one directory that match |
| `Deployment.Deployer.CaseMatchPath` | crates/modde-core/src/fs.rs:112-126 | Each name is matched in turn, whatever siblings there are and in whatever order they are listed; with no siblings that differ in case, the path that a case-insensitive reader follows |
| `Deployment.NormalsMean` | crates/modde-core/src/fs.rs:112-126 | The names matched are those of the normal components, in order |
| `Deployment.Deployer.DeploySymlinks` | crates/modde-core/src/fs.rs:147-170 | Whatever names there are, and whether it succeeds or not: every file is afterwards what it was, or a link to a staged file whose path it matches. Unless staged files clash, and for every order of listing: it succeeds exactly if nothing staged meets a thing of the other kind, and then all that is staged shows, no names differ only in case, and nothing else has changed. With no staged names that differ only in case it leaves exactly the merged tree |
| `Deployment.LinksToMeans` | crates/modde-core/src/fs.rs:147-170 | What such a link is: it leads to a staged file whose path differs at most in case |
| `Deployment.SpellingsRead` | crates/modde-core/src/fs.rs:128-144 | Spellings of a path that differ at most in case read the same |
| `Deployment.SpellingMeans` | crates/modde-core/src/fs.rs:112-126 | Spellings of a path match name by name |
| `Deployment.ClashFreeMeans` | crates/modde-core/src/fs.rs:147-170 | Not clashing means: no two staged things have paths that differ only in case, unless both are directories |
| `Deployment.LandedFound` | crates/modde-core/src/fs.rs:147-170 | Staged directories that differ only in case are merged: after a deployment that succeeds each staged file is found, under every spelling, as a link to its own place |
| `Deployment.OneLost` | crates/modde-core/src/fs.rs:147-170 | Of two staged files whose paths differ only in case one is lost |
| `Deployment.OneLanded` | crates/modde-core/src/fs.rs:151-168 | One more entry, after any part of the staged tree and in any order |
| `Deployment.OneMore` | crates/modde-core/src/fs.rs:153-167 | One more staged entry, after any part of the merge, goes where it would have gone first |
| `Deployment.DeployableMeans` | crates/modde-core/src/fs.rs:160-166 | A deployable tree puts no file where a directory is and no directory where a file is |
| `Deployment.DeployableIf` | crates/modde-core/src/fs.rs:160-166 | And a tree that does so nowhere is deployable |
| `Deployment.MergedNoSiblings` | crates/modde-core/src/fs.rs:147-170 | The target stays free of names that differ only in case |
| `Deployment.StagedFound` | crates/modde-core/src/fs.rs:147-170 | Each staged file is found, under every spelling of its path that differs at most in case, as a link to its own place |
| `Deployment.MergedShows` | crates/modde-core/src/fs.rs:147-170 | All the result shows is such links and the files the target had; nothing of the target is lost |
| `Deployment.MergedTwice` | crates/modde-core/src/fs.rs:147-170 | Deploying the same tree again succeeds and changes nothing |
| `Deployment.DeployedSound` | crates/modde-core/src/fs.rs:147-170 | All of this about the tree a successful deployment leaves, and no file outside the target changed |
| `Bisect.NextCandidate` | crates/modde-core/src/bisect.rs:187-241 | The loop that moves ids between two sets until it is stable ends, and gives exactly the specified plan |
| `Bisect.EnabledIsLeast` | crates/modde-core/src/bisect.rs:195-221 | What is enabled is the second half and all it reaches through suspects: the least set with the second half that lacks nothing it needs |
| `Bisect.PlanIsLeast` | crates/modde-core/src/bisect.rs:195-241 | The same of the plan: it enables the second half and, of the suspects, whatever an enabled one needs, and nothing that every such set would not have |
| `Bisect.PlanPartitions` | crates/modde-core/src/bisect.rs:223-241 | Of distinct suspects, enabled and disabled are complementary parts in the original order; the candidate is what is disabled |
| `Bisect.StuckMeans` | crates/modde-core/src/bisect.rs:195-221 | Nothing is disabled exactly when the second half needs all of the first, directly or through other suspects |
| `Bisect.RoundKeeps` | crates/modde-core/src/bisect.rs:243-249 | A truthful round keeps the culprit and makes progress exactly unless the second half needs all of the first; a good answer leaves at most half |
| `Bisect.RunKeeps` | crates/modde-core/src/bisect.rs:243-249 | Every run keeps the culprit among ever fewer suspects |
| `Bisect.RunEnds` | crates/modde-core/src/bisect.rs:187-249 | In fewer rounds than suspects a run comes to the culprit or to where it is stuck |
| `Bisect.StuckForGood` | crates/modde-core/src/bisect.rs:187-249 | A stuck run never moves again |
| `Bisect.StuckExample` | crates/modde-core/src/bisect.rs:187-249 | A second mod that needs the first: a run that is stuck from the start |
| `Bisect.AloneHalves` | crates/modde-core/src/bisect.rs:182-184 | Without dependencies the two parts are the two halves |
| `Bisect.FindCulprit` | crates/modde-core/src/bisect.rs:182-249 | A run in which no suspect needs an earlier one ends at exactly the culprit within the binary logarithm of the number of suspects, rounded up |
| `Bisect.FindCulpritAlone` | crates/modde-core/src/bisect.rs:182-249 | In particular a run without dependencies |
| `Bisect.ForwardHalves` | crates/modde-core/src/bisect.rs:187-241 | If no suspect needs an earlier one the two parts are the two halves, and the same holds of each |
| `Bisect.CeilLog2Means` | crates/modde-core/src/bisect.rs:187-195 | That number of rounds is the least number of doublings that reaches the number of suspects |
| `RateLimit.RateLimiter.Check` | crates/modde-oracle/src/rate_limit.rs:49-67 | The entry updated in place gives the answer and the state that the trace of calls calls for |
| `RateLimit.OwnAnswersOnly` | crates/modde-oracle/src/rate_limit.rs:52-57 | An answer depends only on earlier calls of the same key |
| `RateLimit.AcceptedMeans` | crates/modde-oracle/src/rate_limit.rs:49-67 | What the bounds count: the accepted calls of a key in an interval |
| `RateLimit.WindowCount` | crates/modde-oracle/src/rate_limit.rs:58-65 | An entry counts exactly the calls accepted since its window began, never more than `burst` |
| `RateLimit.AtMostTwiceBurst` | crates/modde-oracle/src/rate_limit.rs:40-67 | In no interval up to a window long are more than twice `burst` calls of a key accepted |
| `RateLimit.TwiceBurst` | crates/modde-oracle/src/rate_limit.rs:40-67 | And that many can be |
| `RateLimit.RefusedOnlyAfterBurst` | crates/modde-oracle/src/rate_limit.rs:62-64 | A call is refused only if `burst` calls of its key were accepted less than a window before |
| `ByteCache.ByteLruCache.Insert` | crates/modde-sources/src/cache.rs:56-78 | Put, account and evict in place: the new state is `Inserted` |
| `ByteCache.ByteLruCache.InvalidateArchive` | crates/modde-sources/src/cache.rs:81-93 | Collecting the keys and popping each: exactly the entries of that archive go, and their bytes |
| `ByteCache.ByteLruCache.Get` | crates/modde-sources/src/cache.rs:50-52 | A read gives the bytes of the key and makes it the one used last; accounts and keys stay |
| `ByteCache.UsedMoves` | crates/modde-sources/src/cache.rs:50-68 | A read moves the entry from its place to the end; a put leaves the entry of the key last, the others in order, and drops the first only for a new key that finds 1024 entries |
| `ByteCache.TrimmedMeans` | crates/modde-sources/src/cache.rs:70-76 | The eviction loop drops the entries used longest ago, no more than it has to |
| `ByteCache.InsertedKeeps` | crates/modde-sources/src/cache.rs:56-78 | An insertion keeps bytes held within bytes counted within the budget, and leaks exactly what the full map drops by itself |
| `ByteCache.AlwaysSound` | crates/modde-sources/src/cache.rs:40-100 | So in every reachable state: no subtraction underflows, and the budget holds |
| `ByteCache.InsertedPresent` | crates/modde-sources/src/cache.rs:56-78 | What was just inserted is there exactly when it fits the budget beside what had leaked before and what the full map drops for it |
| `ByteCache.NoLeakExactly` | crates/modde-sources/src/cache.rs:40-100 | Over any run: bytes counted are bytes held exactly when no operation so far met a full map with a fresh key that fits the budget and a first entry that has bytes |
| `ByteCache.RoomyNoLeak` | crates/modde-sources/src/cache.rs:63-68 | So nothing leaks while every fresh key finds fewer than 1024 entries, however many keys come and go |
| `ByteCache.FewKeysNoLeak` | crates/modde-sources/src/cache.rs:40-100 | In particular while at most 1024 keys were inserted |
| `ByteCache.InsertedIsThere` | crates/modde-sources/src/cache.rs:56-78 | After any run without such an operation, what was just inserted and fits the budget is there |
| `ByteCache.AllLeaked` | crates/modde-sources/src/cache.rs:63-68 | A run of 1025 insertions after which the whole budget has leaked |
| `ByteCache.DeadForGood` | crates/modde-sources/src/cache.rs:64-76 | After it no entry that has bytes is ever kept again, whatever is done |

## Left out

- File descriptors, inode and symlink checks, `flock` and anchored paths: only the effect of each primitive on the tree is modelled; what the checks add is that a step may fail.
- Whether the game is stopped, whether the sources and locked repositories still match: booleans handed to `Committing.Commit.Apply`; the checks themselves run git and list processes.
- A crash: every state between two steps is a state of the run, so what `Transaction.BackupSurvives` says holds at a crash; recovery after one is done by hand, from the journal.
- The staging directory is a map of its own, not part of the tree; others do not write it, and a declared destination does not lie in it.
- A hard-linked seed shares its payload's inode: later writes through one name are not modelled, only the content at the time of the link.
- Staged payloads are read back and compared in the source; here a staging step fails or writes what it was given.
- The injected failure of the source's own tests (`fail_after`) is not modelled; any primitive may fail anyway.
- A file in the way of a destination read during rollback counts as a changed destination; the source reports it as a read error. Both stop the rollback at the same place.
- Preparation.Prepare: the four loops over addons, configurations, saved variables and seeds are one loop over the items they go through, in the same order; reading sources, locks and digests is left out, so source trees come with the declaration.
- The size and depth limits of reading a directory tree, and its refusal of entries that are neither file nor directory.
- Payloads.Checkout.InsertAll: git listing and blob reading are left out, and so is the partly built tree that a refused insertion leaves, which the source drops.
- Digests (SHA-256, xxhash) are an uninterpreted function.
- Text is characters in `Config` and bytes in the JSON modules, as in the source.
- The text of numbers in configuration values is given; its formatting is serde_json's.
- Texts that are not well-formed JSON: `Layouts.ScannerTakes` says which of them the scanner takes and what it finds; skipping a value in them is only specified by `Json.ValueEnd`. Names that need escapes are searched by their raw bytes.
- LauncherSettings.ReconcileExact: reads the two directories from what the document denotes; that serde_json rejects a document for an undecodable string elsewhere in it is not modelled. Wine path conversion, the backup and the atomic write are left out.
- Aggregates: rates, lift, confidence and Laplace noise; the SQL transport; concurrent ingests and an ingest interrupted between its statements, whose aggregate update is outside the transaction of its inserts.
- Aggregates.AggregateEvents: the result is a map from game and pair to the row; the source's list has no game in it and is in key order.
- `HotDeploy` keys have no component that is empty, `.` or `..`, and a link leads to a plain file outside staging, so it is a leaf. File system faults other than a file in the way are not modelled.
- Deployment: directory links, names that are not valid Unicode, and faults other than a clash of kinds.
- Deployment.Deployer.CaseMatchPath: components other than names and `.`, which a deployment never hands it.
- Deployment.Deployer.DeploySymlinks: where staged files clash, that is, differ only in case from each other or from a staged directory, which of them a success leaves is not said, nor which tree a failing deployment leaves, as both depend on the order of listing; what it leaves alone is said of all of them.
- Bisect: suspects are distinct in the theorems about runs; the plan itself is specified for any list. Sessions, profiles and the performance oracle are left out.
- RateLimit: instants are integers; the mutex and the proxy address handling are left out. A window of zero length lets every call through.
- ByteCache: counters are unbounded integers; they stay at most twice the budget, so they do not wrap for budgets below 2^63. Concurrent readers of the counter are left out.
- The SAT resolver, collision analysis, BSA and BA2 reading, downloads, mod lists, the user interfaces and the network sources: they would add easy members, or rest on code that is not in the repository.
