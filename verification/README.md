# fs-dummy fixture engine in Dafny

fs-dummy is a test fixture. It declares a tiny directory layout: a root directory that
holds exactly one text file, with known content, and exactly one empty folder. It can
materialise that layout (`ensure`), remove it (`cleanup`) and check that the disk still
matches it (`verify`, `verifyFile`, `verifyFolder`). This project models that engine
against an abstract, immutable filesystem and proves how its checks classify every
state and how reconciliation and verification fit together.

Modules, one per component:

- `Wrappers` (wrappers.dfy): `Option` and a `Result` usable with `:-`.
- `Filesystem` (filesystem.dfy): the adapter the library calls. A state is a map from
  paths (sequences of names) to `File(content)`, `Dir` or `Symlink` nodes, plus a map of
  faulty paths. Each fault stands for an adapter error other than "not found".
  `Lstat`, `Readdir` and `ReadFile` are lookups. A path whose parent is something other
  than a directory is reported as ENOTDIR, every other missing path as "not found". `Remove`, `Mkdir` and `WriteFile` are
  state transformers returning the new state or a raw adapter error.
- `DummyErrors` (errors.dfy): the closed code set with its errno table, and the error
  value `DummyError`. The error holds structured details in place of a formatted message.
  It also has the raw error that passes through verification untouched.
- `Fixture` (fixture.dfy): the `Dummy` record, its constructor and the fixture's paths.
  The root string is one path segment. The file and folder are children of it.
- `Verifier` (verifier.dfy): the shared outcome classifier, the six checks, the fail-fast
  runner `Series` and the three public verifications.
- `Conformance` (conformance.dfy): the theorem that verification passes exactly on the
  declared layout, and the priority of the root-listing codes.
- `Reconciler` (reconciler.dfy): `Cleanup` and `Ensure`.
- `Convergence` (convergence.dfy): ensure-then-verify, cleanup-then-verify, idempotence,
  and the tampering scenarios the fixture is meant to catch.

## Model

| member | source | states |
|---|---|---|
| DummyErrors.NewError | lib/fs-dummy.js:41-54 | A missing code becomes DEFAULT with errno 1. A given code is kept. The errno is the table's entry for the error's code, so it lies in 1..7. The details and the wrapped cause are carried unchanged. |
| DummyErrors.ErrnoTable | lib/fs-dummy.js:30-38 | Every code has an entry. The table holds no name outside the closed set. DEFAULT..STAT_ENOTFILE map to 1..7 in the declared order. |
| DummyErrors.ErrnoIdentifiesCode | lib/fs-dummy.js:30-38 | Distinct codes have distinct errnos. |
| Fixture.NewDummy | lib/fs-dummy.js:64-80 | Construction succeeds iff all four arguments are non-empty strings, so empty content is rejected too. A built Dummy stores exactly those four values and a child count of 2. Otherwise the fixed message is returned. |
| Verifier.HandleVerifyFs | lib/fs-dummy.js:254-263 | "Not found" becomes ENOENT for the entity, wrapping the adapter error. Any other adapter error passes through unchanged. On success the verdict is exactly the validator's result. |
| Verifier.VerifyRootStat | lib/fs-dummy.js:152-160 | Passes iff the root is a directory and not faulty. ENOENT iff it is absent. STAT_ENOTDIR iff something else is there, a symlink included. A fault, or the adapter's ENOTDIR when the root's parent is not a directory, passes through as the raw error. |
| Verifier.VerifyRootChildren | lib/fs-dummy.js:163-196 | Folder missing gives MANDATORY_MISSING naming the folder. Else file missing gives MANDATORY_MISSING. Else more entries than the child count gives UNKNOWN_DETECTED, listing every entry of the root. Else it passes. ENOENT iff the root is absent. An unlistable root passes its raw error through. |
| Verifier.VerifyFolderStat | lib/fs-dummy.js:228-237 | Passes iff the folder is a directory and not faulty. ENOENT iff absent. STAT_ENOTDIR iff a file or symlink is there. Faults and a non-directory parent pass through raw. |
| Verifier.VerifyFolderChildren | lib/fs-dummy.js:240-251 | Passes iff the folder lists no entry. Any entry gives UNKNOWN_DETECTED. ENOENT iff absent. |
| Verifier.VerifyFileStat | lib/fs-dummy.js:199-208 | Passes iff a regular file is there and not faulty. ENOENT iff absent. STAT_ENOTFILE iff a directory or symlink is there. Faults and a non-directory parent pass through raw. |
| Verifier.VerifyFileContent | lib/fs-dummy.js:211-225 | Passes iff the file's text equals the expected content exactly. NOMATCH_CONTENT iff a file with other text is there, and the error carries both texts. ENOENT iff absent. Anything else there, a fault or a non-directory parent passes the adapter error through. |
| Verifier.Series | lib/fs-dummy.js:104-111 | The runner passes iff every step passes. A failure is the verdict of some step all of whose predecessors passed. |
| Verifier.SeriesConcat | lib/fs-dummy.js:101-130 | Fail-fast composition. After a failure no later step affects the verdict. Otherwise the verdict is that of the remaining steps. |
| Verifier.VerifyOrder | lib/fs-dummy.js:101-112 | `verify` returns the first failure in this order: root stat, root children, folder stat, folder children, file stat, file content. |
| Verifier.VerifyPassesIffAllPass | lib/fs-dummy.js:101-112 | `verify` passes iff all six checks pass. |
| Verifier.VerifyStopsAtRoot | lib/fs-dummy.js:104-106 | A failing root check is the verdict of `verify`. |
| Verifier.VerifyFile | lib/fs-dummy.js:114-121 | Runs only file stat then file content. It passes iff the file path holds exactly the expected file. Each code is tied to its cause on that path alone. A root that is not a directory yields the adapter's raw ENOTDIR. |
| Verifier.VerifyFolder | lib/fs-dummy.js:123-130 | Runs only folder stat then folder children. It passes iff the folder path holds an empty directory. Each code is tied to its cause on that path alone. A root that is not a directory yields the adapter's raw ENOTDIR. |
| Conformance.LayoutPasses | lib/fs-dummy.js:101-112 | A state whose root subtree is the declared layout, with no fault on the three paths, passes `verify`. |
| Conformance.PassingIsLayout | lib/fs-dummy.js:101-112 | In a well-formed state, passing `verify` means the root subtree is exactly the declared layout. Nothing deeper exists either. |
| Conformance.VerifyPassesIffLayout | lib/fs-dummy.js:101-112 | Both directions: `verify` passes iff the root subtree is exactly the declared layout and unfaulted. |
| Conformance.MissingFolderWins | lib/fs-dummy.js:166-174 | A listable root without the folder makes `verify` report MANDATORY_MISSING for the folder, whatever extra entries exist. |
| Conformance.MissingFileNext | lib/fs-dummy.js:175-183 | With the folder present and the file missing, `verify` reports MANDATORY_MISSING for the file. |
| Conformance.ExtraEntryDetected | lib/fs-dummy.js:184-192 | The file, the folder and any third entry make `verify` report UNKNOWN_DETECTED. |
| Conformance.MissingRootSurfacesPerEntity | lib/fs-dummy.js:114-130 | With the root gone, `verifyFile` and `verifyFolder` report ENOENT for the file or folder itself, not for the root. |
| Conformance.RootNotADirectoryBlocksEntries | lib/fs-dummy.js:254-258 | With a file or link in place of the root, `verifyFile` and `verifyFolder` pass the adapter's ENOTDIR through raw, while `verify` stops at the root with STAT_ENOTDIR. |
| Reconciler.Cleanup | lib/fs-dummy.js:96-99 | Succeeds iff the root path is not faulty, whether or not anything was there. Afterwards nothing remains under the root, and everything outside is unchanged. |
| Reconciler.Ensure | lib/fs-dummy.js:86-94 | Succeeds iff the root's parent is a directory, the three paths are not faulty and the names differ. It then leaves exactly the declared layout under the root and changes nothing else. Each failure is the first failing step's raw error: the root's fault, the root's mkdir error (ENOTDIR when the root's parent is not a directory, else "not found"), the file's fault, EEXIST on the folder, or the folder's fault. |
| Reconciler.CleanupPreservesWellFormed | lib/fs-dummy.js:96-99 | After `cleanup` every remaining entry still lives inside an existing directory. |
| Reconciler.EnsurePreservesWellFormed | lib/fs-dummy.js:86-94 | After `ensure` every entry still lives inside an existing directory. |
| Convergence.EnsureThenVerify | lib/fs-dummy.js:86-112 | After a successful `ensure`, `verify`, `verifyFile` and `verifyFolder` all pass. |
| Convergence.EnsureConverges | lib/fs-dummy.js:86-94 | For a valid fixture with distinct names, `ensure` succeeds from any prior root content and `verify` then passes. |
| Convergence.CleanupThenVerify | lib/fs-dummy.js:96-112 | After `cleanup`, `verify` reports ENOENT for the root, wrapping the adapter's not-found error, unless the root's parent is not a directory, when the adapter's ENOTDIR passes through raw. `verifyFile` and `verifyFolder` report ENOENT. |
| Convergence.EnsureIdempotent | lib/fs-dummy.js:86-94 | Ensuring an ensured state gives the same state. |
| Convergence.CleanupIdempotent | lib/fs-dummy.js:96-99 | Cleaning up a cleaned-up state gives the same state. |
| Convergence.RewrittenContentDetected | test/spec.js:930-940 | After `ensure`, any other text written into the file makes `verifyFile` report NOMATCH_CONTENT with both texts. |
| Convergence.RemovedFileDetected | test/spec.js:918-928 | After `ensure`, removing the file makes `verifyFile` report ENOENT. |
| Convergence.FolderReplacedByFileDetected | test/spec.js:491-505 | A file in place of the folder makes `verifyFolder` report STAT_ENOTDIR. |
| Convergence.FileReplacedByDirDetected | test/spec.js:383-397 | A directory in place of the file makes `verifyFile` report STAT_ENOTFILE. |
| Convergence.ExtraEntryAfterEnsureDetected | test/spec.js:317-331 | One more entry in the ensured root makes `verify` report UNKNOWN_DETECTED. |

## Left out

- Real I/O through fs-extra and the callback chaining of `async.series`. The adapter is
  the pure `Filesystem` module, and a step sequence is a fail-fast `Result` chain or
  `Series`.
- Message text. The VError printf formatting and the `code + ', '` prefix are not
  modelled; errors carry the entity, paths, names and texts as structured `Detail` fields.
- `path.join` normalisation. The root string is one opaque segment under the top of the
  filesystem, and joining appends a segment. `..`, separators and platform rules are not
  modelled.
- Symlink resolution. A `Symlink` node is never followed. `lstat` reports a link at the
  path itself as a link, as the real call does. A link among the path's ancestors is not
  followed either: a link as the parent counts as a non-directory, giving ENOTDIR, where
  the real calls would resolve it. `readdir`, `readFile` and `writeFile` on a link fail
  with a model-only raw code. No verification reaches them on a link, because a stat
  check fails first.
- Only the immediate parent decides between ENOTDIR and "not found". A path two levels
  below a regular file reads as "not found" in the model, where the real calls report
  ENOTDIR. The fixture's paths are at most two segments deep, so this matters only when
  the top of the filesystem is itself not a directory.
- Text encoding. Contents and names are sequences of Unicode scalar values, and the UTF-8
  write of `ensure` followed by the UTF-8 read of `verifyFile` is taken as the identity.
  A JavaScript string holding an unpaired surrogate is outside the model. Such content
  reads back as U+FFFD, so the real `verifyFile` reports NOMATCH_CONTENT after `ensure`,
  a case `Convergence.EnsureThenVerify` does not cover.
- Faults are attached to the path an adapter call names. A permission error deep inside
  a subtree being removed is not modelled.
- DummyErrors.NewError: a code string outside the table, which leaves `errno` undefined
  in JavaScript, is not modelled. The code is drawn from the closed set or is absent.
- The `DummyError` inheritance from VError and its `name` field are not modelled.
- `_removeFile`, `_removeFolder`, `cleanupFile`, `cleanupFolder`, `ensureFile` and
  `ensureFolder` are exercised by the tests but are not part of lib/fs-dummy.js.
  They are not part of this model.
- Concurrent interleaving against the same root. The library does not support it, and
  all operations here are sequential.
- A directory listing is a set of names. A real listing has no duplicates, so its length
  equals the set's size.
- Names are not required to differ, matching the constructor. With equal file and folder
  names `ensure` fails with EEXIST on the folder. The lemmas that need distinct names
  say so.
