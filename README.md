# larner-dev/generator: a verified model of its core

`generator` is a command-line tool that scaffolds TypeScript packages from
templates (`new`). It can later upgrade a generated package to a newer
version of its templates (`upgrade`). This project models the logic at the
heart of those two commands and proves properties of it in Dafny:

- **Structural three-way JSON merge** (`ConfigFileHelpers`). `isConfigFile`
  decides which files are structured config. `configDiff` walks the *before*,
  *current* and *after* versions of a JSON document and returns merge
  decisions (key path, final value, conflict flag). `applyChanges` replays
  those decisions onto two copies of a base document.
- **The upgrade reconciler** (`Reconcile`). Its two passes compare the old and
  new fingerprint maps with the fingerprint of the live file. They sort every
  path into added / removed / updated / warnings / conflicted.
- **The conflict-marker writer** (`TextMerge`). It splits a conflicted file
  into lines and groups them around the zero-context diff hunks. It emits
  `<<<<<<< CURRENT` / `=======` / `>>>>>>> UPGRADED` blocks and joins the
  result with the file's line break.
- **The typescript-nodejs generator** (`NodejsGenerator`). This covers:
  - the prompt `when` rules;
  - how the answers expand into feature names;
  - how the per-feature dependency tables merge into disjoint, name-sorted
    `dependencies` and `devDependencies`;
  - the list of template actions.
- **Fingerprint selection** (`CurrentValueOrHash`). A config file's
  fingerprint is its raw text. Any other file's is the md5 of its bytes, and a
  missing non-config file gets the `""` sentinel.
- **The `new` command's own logic** (`NewCommand`). This is the `includes` /
  `includesAny` / `excludes` Handlebars helpers, plus the answer-override and
  destination-defaulting rule.

Shared pieces:
- `Wrappers` holds `Option` and `Result`. A thrown error or rejected promise
  is an `Err`.
- `Json` holds parsed JSON values. Objects are association lists with
  unique keys, in the order their members are stored (integer-like keys are
  not moved first, see `Json.Keys` under "Left out"). JavaScript's `undefined` is `Slot.Absent`, and deep
  equality plays the part of lodash `isEqual`.
- `Sequences` holds the regrouping of concatenations that the merge and
  generator proofs share.

Where the source changes state step by step, the model is imperative:
- `ApplyChanges`, the reconciler's `FirstPass`/`SecondPass`, `BuildGroups`,
  `EmitLines` and `WriteConflicts` are methods with loops.
- The generator's `BuildActions` updates a `GeneratorData` object in place.
  Its loops are in the methods it calls: `SetListing` and `SetFeatures`
  merge the dependency tables, `SortByName` sorts an `array` in place, and
  `FeatureActions` builds the action list.
- Each such method is proved equal to a specification function. The
  properties are proved about that function.

Where the code and its descriptions disagree, the model follows the code:
- A missing `.json` file is not mapped to the `""` sentinel. Its read is
  outside the `try`, so the lookup rejects (`CurrentValueOrHash.MissingFile`).
- Writing a `remove` conflict fails. The regenerated file does not exist, so
  reading it rejects (`TextMerge.MergeAllNeedsBothFiles`). The conflicted
  files written before it stay rewritten (`TextMerge.MergeAllStopsAtFirstMissing`).
- The `new` field of an `update` conflict holds the *old* fingerprint
  (`Reconcile.ChangedPathVerdict`).
- `configDiff` throws when it must read a property of an undefined or null
  *before* (`DiffError.UnreadableBefore`).
- Several unit tests expect a single root node for equal or nested inputs,
  and `test.only` means they do not run. The model follows the function body:
  equal inputs give no node (`ConfigFileHelpers.ConfigDiff`,
  `UnchangedTemplateNoNodes`).

## Model

| member | source | states |
|---|---|---|
| ConfigFileHelpers.IsConfigFile | src/lib/configFileHelpers.ts:21-27 | a path is a config file exactly when its last segment ends in `.json`, in any letter case, after at least one character; the type found is the one whose extension is that lower-cased ending |
| ConfigFileHelpers.Extname | src/lib/configFileHelpers.ts:22 | the extension is empty or a dot followed by a dot-free, slash-free suffix of the path without trailing slashes |
| ConfigFileHelpers.JsonExtensionIffJsonName | src/lib/configFileHelpers.ts:22-23 | the lower-cased `extname` is `.json` exactly when the last segment ends in `.json` (any case) with at least one character before it |
| ConfigFileHelpers.ConfigFileHasJsonName | src/lib/configFileHelpers.ts:22-23 | a path whose lower-cased `extname` is `.json` has a base name ending in `.json` after at least one character |
| ConfigFileHelpers.JsonNameIsConfigFile | src/lib/configFileHelpers.ts:22-23 | a base name ending in `.json` after at least one character gives a lower-cased `extname` of `.json` |
| ConfigFileHelpers.ExtnameOfSegment | src/lib/configFileHelpers.ts:22 | a non-empty extension is a proper suffix of the last path segment |
| ConfigFileHelpers.ToLower | src/lib/configFileHelpers.ts:22 | lower-casing keeps the length |
| ConfigFileHelpers.ToLowerAt | src/lib/configFileHelpers.ts:22 | lower-casing maps each character independently |
| ConfigFileHelpers.Dedup | src/lib/configFileHelpers.ts:49-54 | `[...new Set(s)]` has no repeats and the same elements as `s` |
| ConfigFileHelpers.UnionKeys | src/lib/configFileHelpers.ts:49-54 | the visited keys are each key of current or after, once |
| ConfigFileHelpers.UnionKeysOrder | src/lib/configFileHelpers.ts:49-54 | keys are visited in current's order, then after's remaining keys in after's order |
| ConfigFileHelpers.ConfigDiff | src/lib/configFileHelpers.ts:45-47 | current deep-equal to after gives no node, whatever before is |
| ConfigFileHelpers.LeafRule | src/lib/configFileHelpers.ts:68-75 | the leaf decision in the source's order: before equal to current takes after; else before equal to after keeps current; else a conflict taking after (proved per node by ConflictTakesAfter and NonConflictTakesChangedSide) |
| ConfigFileHelpers.DiffMembers | src/lib/configFileHelpers.ts:56-65 | the key loop: each visited key's nodes in visiting order, the first error ending it (DiffMembersSound, DiffMembersIncludes) |
| ConfigFileHelpers.UnchangedTemplateNoNodes | src/lib/configFileHelpers.ts:45-47 | identical current and after documents produce no nodes |
| ConfigFileHelpers.ConfigDiffSound | src/lib/configFileHelpers.ts:39-76 | every node's path extends `keys` and diverges there: values differ at the path, not both objects, and the leaf rule gives its final and flag; no node's path is a prefix of another's |
| ConfigFileHelpers.DiffMembersSound | src/lib/configFileHelpers.ts:56-65 | the nodes of the key loop are one level deeper than `keys`, at a visited key, diverging below it, and prefix-free |
| ConfigFileHelpers.ConfigDiffComplete | src/lib/configFileHelpers.ts:39-76 | every diverging path with its leaf decision appears as a node (the converse of soundness) |
| ConfigFileHelpers.DiffMembersIncludes | src/lib/configFileHelpers.ts:56-65 | each visited key's child nodes are among the loop's nodes |
| ConfigFileHelpers.DivergesAtPath | src/lib/configFileHelpers.ts:48-75 | a diverging path ends at leaf values that differ and are not both objects, with the three-way leaf rule deciding the node |
| ConfigFileHelpers.ConflictTakesAfter | src/lib/configFileHelpers.ts:68-75 | a node is a conflict exactly when before differs from both current and after at its path, and then its final is after's value |
| ConfigFileHelpers.NonConflictTakesChangedSide | src/lib/configFileHelpers.ts:68-72 | a non-conflict takes after's value when before equals current, else current's value (with before equal to after) |
| ConfigFileHelpers.LeafNode | src/lib/configFileHelpers.ts:48-75 | arrays, scalars and mismatched types give exactly one node at the current key path |
| ConfigFileHelpers.ObjectNode | src/lib/configFileHelpers.ts:48-66 | two different objects recurse over the union of their keys |
| ConfigFileHelpers.DiffMembersCons | src/lib/configFileHelpers.ts:56-65 | the loop's nodes are the first key's nodes followed by the rest's |
| ConfigFileHelpers.NestedExample | src/lib/configFileHelpers.test.ts:208-231 | the nested example yields the three non-conflict nodes in current-then-after key order, a removed key with final undefined |
| ConfigFileHelpers.NestedInner | src/lib/configFileHelpers.test.ts:208-231 | the inner object of the nested example yields the same three nodes |
| ConfigFileHelpers.ConflictExample | src/lib/configFileHelpers.test.ts:261-274 | a key changed on both sides is one conflict at the deepest key with after's value; the equal sibling adds nothing |
| ConfigFileHelpers.ArrayLeafExample | src/lib/configFileHelpers.test.ts:32-40 | an array is a leaf: one root node taking current's changed array |
| ConfigFileHelpers.MismatchLeafExample | src/lib/configFileHelpers.test.ts:142-150 | values of different types are a conflict at the root taking after's value |
| ConfigFileHelpers.MissingBeforeExample | src/lib/configFileHelpers.ts:59 | recursing into a key missing from before reads a property of undefined and fails |
| ConfigFileHelpers.MissingBeforeInner | src/lib/configFileHelpers.ts:59 | an undefined before with two differing objects fails at the current path |
| ConfigFileHelpers.LastKey | src/lib/configFileHelpers.ts:88 | the last key of a non-empty path is its last element |
| ConfigFileHelpers.ParentPath | src/lib/configFileHelpers.ts:84-87 | the parent walk follows all keys but the last |
| ConfigFileHelpers.Assign | src/lib/configFileHelpers.ts:94-95 | after the assignment the key holds the value and every other key is unchanged |
| ConfigFileHelpers.Delete | src/lib/configFileHelpers.ts:91-92 | after `delete` the key is undefined and every other key is unchanged |
| ConfigFileHelpers.Walk | src/lib/configFileHelpers.ts:84-87 | a successful walk ends at the value along the path; a failure is a TypeError for the node's keys |
| ConfigFileHelpers.Update | src/lib/configFileHelpers.ts:84-103 | a successful write leaves an object whose value at the node's path is the written one |
| ConfigFileHelpers.UpdateFrame | src/lib/configFileHelpers.ts:84-103 | a write leaves every path unrelated to the written one by prefix unchanged |
| ConfigFileHelpers.ApplyChanges | src/lib/configFileHelpers.ts:78-106 | the loop over the nodes computes the two copies as the recursive definition does |
| ConfigFileHelpers.ApplyOne | src/lib/configFileHelpers.ts:84-103 | one iteration: walk both copies to the parent, then write final into both copies, or into after only for a conflict (ApplyOneTarget, ApplyOneFrame) |
| ConfigFileHelpers.ApplyAll | src/lib/configFileHelpers.ts:79-104 | two copies of base, then every node applied in order, the first TypeError ending the run (ApplyAllReplaysAfter, ApplyAllReplaysCurrent) |
| ConfigFileHelpers.ApplyAllStep | src/lib/configFileHelpers.ts:81-104 | each iteration applies one node to the copies the earlier iterations left |
| ConfigFileHelpers.ApplyAllErrPersists | src/lib/configFileHelpers.ts:81-104 | the first TypeError ends the loop; later nodes are never applied |
| ConfigFileHelpers.ApplyOneTarget | src/lib/configFileHelpers.ts:89-103 | a node sets its final in after; a conflict leaves current unchanged; a non-conflict sets its final in current too (deletion when final is undefined) |
| ConfigFileHelpers.ApplyOneFrame | src/lib/configFileHelpers.ts:89-103 | a node leaves paths unrelated to its own unchanged in both copies |
| ConfigFileHelpers.ApplyOneWrites | src/lib/configFileHelpers.ts:89-103 | after is always written; current is written only for a non-conflict |
| ConfigFileHelpers.Target | src/lib/configFileHelpers.ts:88 | an empty key path writes the key named "undefined" |
| ConfigFileHelpers.NonConflicting | src/lib/configFileHelpers.ts:89-96 | the nodes that are not conflicts, in order |
| ConfigFileHelpers.ApplyAllLast | src/lib/configFileHelpers.ts:81-104 | the result is the last node applied to the result of the others |
| ConfigFileHelpers.Replay | src/lib/configFileHelpers.ts:89-103 | the independent reference for applyChanges: one document with each given node's final written at its path, in order |
| ConfigFileHelpers.ApplyAllReplaysAfter | src/lib/configFileHelpers.ts:78-106 | after is base with every node's final written in order |
| ConfigFileHelpers.ApplyAllReplaysCurrent | src/lib/configFileHelpers.ts:78-106 | current is base with only the non-conflict nodes written in order |
| ConfigFileHelpers.ReplaySnoc | src/lib/configFileHelpers.ts:81-104 | replaying one more node writes it onto the previous replay |
| ConfigFileHelpers.NoConflictSameCopies | src/lib/configFileHelpers.ts:89-103 | without conflicting nodes the two copies come out equal |
| ConfigFileHelpers.NonConflictingAll | src/lib/configFileHelpers.ts:89-96 | with no conflicts every node is replayed on current |
| ConfigFileHelpers.AllConflictsKeepCurrent | src/lib/configFileHelpers.ts:97-103 | when every node is a conflict, current is base itself |
| ConfigFileHelpers.NonConflictingNone | src/lib/configFileHelpers.ts:97-103 | with only conflicts nothing is replayed on current |
| Json.Lookup | src/lib/configFileHelpers.ts:59-61 | a property read finds the member with that key, or undefined exactly when the key is absent |
| Json.LookupUnique | src/lib/configFileHelpers.ts:59-61 | with unique keys, reading a member's key finds that member |
| Json.JsonEqReflexive | src/lib/configFileHelpers.ts:45 | deep equality is reflexive on well-formed values |
| Json.SlotEqReflexive | src/lib/configFileHelpers.ts:45 | deep equality with undefined is reflexive |
| Json.IsObject | src/lib/configFileHelpers.ts:29-31 | `typeof` is "object", not an array and not null, exactly for objects (`TypeOf` models `typeof`) |
| Json.Keys | src/lib/configFileHelpers.ts:51-52 | `Object.keys` lists one name per member, in the order the members are stored (integer-like keys are not moved first) |
| Reconcile.Get | src/commands/upgrade.ts:82 | a lookup misses exactly when the path is not a key, and otherwise finds a stored pair |
| Reconcile.GetUnique | src/commands/upgrade.ts:92 | with unique keys, looking up the i-th key finds the i-th value |
| Reconcile.WarningMessage | src/commands/upgrade.ts:101-103 | the warning text is the path inside a fixed 79-character frame |
| Reconcile.WarningMessageInjective | src/commands/upgrade.ts:101-103 | distinct paths give distinct warnings |
| Reconcile.OldVerdicts | src/commands/upgrade.ts:81-116 | the first loop decides each old path in map order |
| Reconcile.NewVerdicts | src/commands/upgrade.ts:118-132 | the second loop decides each new path in map order |
| Reconcile.OldPathVerdict | src/commands/upgrade.ts:82-115 | pass 1 for one old path: dropped by the new map, unchanged (no record) or changed |
| Reconcile.DroppedVerdict | src/commands/upgrade.ts:82-91 | live equal to old: removed; missing: nothing; anything else: a `remove` conflict (DroppedPathVerdict) |
| Reconcile.ChangedVerdict | src/commands/upgrade.ts:92-114 | live equal to old: updated; equal to new: a warning; anything else: an `update` conflict whose `new` holds the old fingerprint (ChangedPathVerdict) |
| Reconcile.NewPathVerdict | src/commands/upgrade.ts:118-131 | pass 2: nothing for a path the old map has; a missing live file: added; otherwise an `add` conflict (NewPathVerdictTwoOutcomes) |
| Reconcile.PathVerdict | src/commands/upgrade.ts:81-132 | the per-path reference: pass 1's verdict when the old map has the path, else pass 2's (ClassifyMembers) |
| Reconcile.Classify | src/commands/upgrade.ts:75-132 | the five lists: the verdicts of pass 1 then of pass 2, recorded in order (computed by ClassifyPaths, characterised by ClassifyMembers) |
| Reconcile.ClassifyPaths | src/commands/upgrade.ts:75-132 | the two passes compute the five lists the specification function gives |
| Reconcile.FirstPass | src/commands/upgrade.ts:81-116 | the first loop records every old path's verdict in order |
| Reconcile.VisitOldPath | src/commands/upgrade.ts:82-115 | one iteration of the first loop pushes exactly that path's verdict |
| Reconcile.VisitDroppedPath | src/commands/upgrade.ts:82-91 | a dropped path is pushed onto removed, conflicted, or nothing, by its verdict |
| Reconcile.VisitChangedPath | src/commands/upgrade.ts:92-114 | a changed path is pushed onto updated, warnings or conflicted, by its verdict |
| Reconcile.SecondPass | src/commands/upgrade.ts:118-132 | the second loop adds every new path's verdict after the first loop's |
| Reconcile.VisitNewPath | src/commands/upgrade.ts:119-131 | one iteration of the second loop pushes exactly that path's verdict |
| Reconcile.RecordAllStep | src/commands/upgrade.ts:81-132 | recording one more verdict pushes it onto the lists built so far |
| Reconcile.RecordAllAppend | src/commands/upgrade.ts:81-132 | recording two runs of verdicts is recording the first, then the second |
| Reconcile.RecordAllMembers | src/commands/upgrade.ts:75-132 | each list holds exactly the paths (or warning texts, or records) with that verdict |
| Reconcile.RecordAllPaths | src/commands/upgrade.ts:75-77 | added, removed and updated hold exactly the paths with that verdict |
| Reconcile.RecordAllWarnings | src/commands/upgrade.ts:79 | the warnings are exactly the messages of the warned paths |
| Reconcile.RecordAllConflicts | src/commands/upgrade.ts:78 | the conflicted list holds exactly the records of conflicted verdicts |
| Reconcile.VerdictsNameKeys | src/commands/upgrade.ts:87-129 | every conflict record names the path it was computed for |
| Reconcile.OldVerdictNamesKey | src/commands/upgrade.ts:87-113 | a first-pass conflict record names its own path |
| Reconcile.NewVerdictNamesKey | src/commands/upgrade.ts:124-129 | a second-pass conflict record names its own path |
| Reconcile.EntryVerdict | src/commands/upgrade.ts:81-132 | with unique keys, a recording entry is listed exactly when it is its path's verdict |
| Reconcile.EntryVerdictSound | src/commands/upgrade.ts:81-132 | a listed recording entry is its path's verdict |
| Reconcile.EntryVerdictListed | src/commands/upgrade.ts:81-132 | a path whose verdict records something is listed by one of the loops |
| Reconcile.OldEntryVerdict | src/commands/upgrade.ts:81-116 | the first loop's entry for an old path is that path's verdict |
| Reconcile.NewEntryVerdict | src/commands/upgrade.ts:118-132 | a recording entry of the second loop is that path's verdict |
| Reconcile.ClassifyMembers | src/commands/upgrade.ts:75-132 | each path lands in the list of its verdict and in no other |
| Reconcile.ClassifyPathLists | src/commands/upgrade.ts:75-77 | a path is in added, removed or updated exactly when its verdict says so |
| Reconcile.ClassifyWarnings | src/commands/upgrade.ts:100-104 | a path's warning is present exactly when its verdict is a warning |
| Reconcile.ClassifyConflicts | src/commands/upgrade.ts:78 | a conflict record for a path is present exactly when it is that path's verdict |
| Reconcile.UnchangedFingerprintNoRecord | src/commands/upgrade.ts:81-116 | a path with the same old and new fingerprint gets no record, whatever the live file holds |
| Reconcile.DroppedPathVerdict | src/commands/upgrade.ts:82-91 | a dropped path: live equal to old gives removed; a missing live file gives nothing; anything else a `remove` conflict |
| Reconcile.ChangedPathVerdict | src/commands/upgrade.ts:92-114 | a changed path: live equal to old gives updated; equal to new a warning; anything else, a missing file included, an `update` conflict whose `new` field is the old fingerprint |
| Reconcile.NewPathVerdictTwoOutcomes | src/commands/upgrade.ts:118-131 | a path only in new is added when its live file is missing and an `add` conflict otherwise, never nothing |
| Reconcile.SecondPassSkipsOldPaths | src/commands/upgrade.ts:119 | the second pass records nothing for a path the old map has |
| TextMerge.FirstNewline | src/commands/upgrade.ts:173-178 | finds the first line feed of a text, if any |
| TextMerge.SplitLines | src/commands/upgrade.ts:173-178 | `split(/\r?\n/)` gives at least one line and no line holds a line feed |
| TextMerge.Join | src/commands/upgrade.ts:238 | `join(newline)`: the lines with the separator between consecutive ones (SplitJoinRoundTrip, SplitJoinCrlfRoundTrip) |
| TextMerge.SplitJoinRoundTrip | src/commands/upgrade.ts:173-178 | without carriage returns, splitting and joining with "\n" gives the text back |
| TextMerge.SplitJoinCrlfRoundTrip | src/commands/upgrade.ts:173-178 | when every line feed ends a "\r\n" pair and every carriage return starts one, splitting and joining with "\r\n" gives the text back |
| TextMerge.JoinSplitRoundTrip | src/commands/upgrade.ts:173-178 | lines without line feeds or trailing carriage returns, joined with "\n", split back into the same lines |
| TextMerge.SplitAtNewline | src/commands/upgrade.ts:173-178 | a line feed not after a carriage return ends the first line there |
| TextMerge.FirstNewlineAt | src/commands/upgrade.ts:173-178 | an index holding the first line feed is the one found |
| TextMerge.SliceIndex | src/commands/upgrade.ts:201-209 | a slice bound is clamped into the sequence, in-range bounds unchanged |
| TextMerge.JsSlice | src/commands/upgrade.ts:201-209 | `slice` with in-range bounds is the sub-sequence, and never longer than the sequence |
| TextMerge.GroupsFrom | src/commands/upgrade.ts:198-222 | per hunk, the non-empty unchanged run since the last index then the hunk's old and new slices; then the non-empty tail (CurrentSideIsCurrent, UpgradedSideIsUpgraded) |
| TextMerge.Render | src/commands/upgrade.ts:224-237 | an unchanged group's lines verbatim; a change as `<<<<<<< CURRENT`, its old lines, `=======`, its new lines, `>>>>>>> UPGRADED` (EmitLines, OneBlockPerHunk) |
| TextMerge.MergeText | src/commands/upgrade.ts:173-238 | one file's written text: split both, group around the hunks, render, join with the line break (MergeFile, ZeroHunksRejoins) |
| TextMerge.PushHunkGroups | src/commands/upgrade.ts:201-216 | one hunk pushes the unchanged run since the previous hunk when non-empty, then its changed region |
| TextMerge.BuildGroups | src/commands/upgrade.ts:198-222 | the hunk loop and the trailing run build the groups the recursive definition gives |
| TextMerge.PushTrailing | src/commands/upgrade.ts:219-221 | the unchanged run after the last hunk is pushed only when non-empty |
| TextMerge.EmitLines | src/commands/upgrade.ts:224-237 | the emitted lines are each group's lines in order, with marker blocks around changes |
| TextMerge.MergeFile | src/commands/upgrade.ts:171-238 | the written text is the rendered groups joined with the file's line break |
| TextMerge.RenderAppend | src/commands/upgrade.ts:224-237 | rendering two group lists is rendering each, concatenated |
| TextMerge.HunkGroupsCurrent | src/commands/upgrade.ts:201-216 | one hunk covers the current lines from the previous hunk to its end |
| TextMerge.HunkGroupsUpgraded | src/commands/upgrade.ts:201-216 | one hunk's upgraded side is the unchanged run then its new lines |
| TextMerge.CurrentSideIsCurrent | src/commands/upgrade.ts:198-237 | for ordered, in-range hunks the unchanged runs and old halves spell the current file from the last index on |
| TextMerge.UpgradedSideIsUpgraded | src/commands/upgrade.ts:198-237 | for hunks that describe the diff, the unchanged runs and new halves spell the regenerated file |
| TextMerge.NoEmptyUnchangedGroup | src/commands/upgrade.ts:210-221 | no empty unchanged group is ever pushed |
| TextMerge.OneBlockPerHunk | src/commands/upgrade.ts:200-218 | each hunk gives exactly one marker block, in hunk order, holding that hunk's old and new lines |
| TextMerge.HunkChangesCons | src/commands/upgrade.ts:200-218 | the first hunk puts its own changed region first |
| TextMerge.ChangesAppend | src/commands/upgrade.ts:198-222 | the changed regions of two group lists concatenate |
| TextMerge.ZeroHunksRejoins | src/commands/upgrade.ts:219-238 | with zero hunks the written text is the current lines rejoined with the line break |
| TextMerge.ZeroHunksIdentity | src/commands/upgrade.ts:219-238 | with zero hunks, "\n" breaks and no carriage returns, the file is written back unchanged |
| TextMerge.ZeroHunksCrlfIdentity | src/commands/upgrade.ts:219-238 | with zero hunks and "\r\n" line breaks only, the file is written back unchanged, its CRLF style kept |
| TextMerge.MergeOne | src/commands/upgrade.ts:168-238 | one conflicted path is rewritten with its merged text; a missing live or regenerated file is an error |
| TextMerge.MergeAll | src/commands/upgrade.ts:168-239 | each conflicted path in order gets its merged text; the first missing file stops the run with the earlier writes kept (MergeAllFrame, MergeAllNeedsBothFiles, MergeAllStopsAtFirstMissing) |
| TextMerge.WriteConflicts | src/commands/upgrade.ts:163-239 | a declined confirmation writes nothing; otherwise every conflicted path in turn gets its merged text, and a rejection leaves the tree as written so far |
| TextMerge.MergeAllFrame | src/commands/upgrade.ts:168-239 | however the loop ends, no file appears or disappears and only conflicted paths change |
| TextMerge.MergeAllNeedsBothFiles | src/commands/upgrade.ts:171-172 | the loop runs to the end exactly when every conflicted path exists in both trees, so a remove conflict stops it |
| TextMerge.MergeAllStopsAtFirstMissing | src/commands/upgrade.ts:168-239 | when the k-th path is the first one missing, the loop rejects with that path and the tree is exactly the one the first k paths leave, all of them rewritten and no later one |
| TextMerge.RemoveAfterUpdateKeepsUpdate | src/commands/upgrade.ts:168-239 | an update conflict followed by a remove conflict: the first file is rewritten before the second read rejects, and the second file is unchanged |
| NodejsGenerator.AskApiMiddleware | src/typescript-nodejs/index.ts:153 | the middleware prompt is asked exactly when `koa_api` is among the features |
| NodejsGenerator.AskDbKnexDialect | src/typescript-nodejs/index.ts:169-171 | the dialect prompt is asked exactly when `db_knex` or `db_knex_orm` is among the features |
| NodejsGenerator.AskLogManagementType | src/typescript-nodejs/index.ts:187 | the log prompt is asked exactly when `log_management` is among the features |
| NodejsGenerator.AskAnalyticsManagementType | src/typescript-nodejs/index.ts:199 | the analytics prompt is asked exactly when `analytics_management` is among the features |
| NodejsGenerator.AskSecretsManagementType | src/typescript-nodejs/index.ts:215-220 | the secrets prompt's five triggers (SecretsPromptTriggers, DialectAsksSecrets) |
| NodejsGenerator.AskPublic | src/typescript-nodejs/index.ts:227 | the public prompt is asked exactly when the answers' `publishable` key is truthy (PublicNeverAsked) |
| NodejsGenerator.DialectAsksSecrets | src/typescript-nodejs/index.ts:169-220 | every setup that asks for a knex dialect also asks how secrets are managed |
| NodejsGenerator.SecretsPromptTriggers | src/typescript-nodejs/index.ts:215-220 | the secrets prompt is asked exactly for secrets, analytics, db_knex, db_knex_orm or logtail logging |
| NodejsGenerator.PublicNeverAsked | src/typescript-nodejs/index.ts:88-227 | answers whose keys are all prompt names (lines 88-224) never have a truthy `publishable`, so the public prompt is never asked, even for a publishable package |
| NodejsGenerator.KnexOrmKeyNeverPrompted | src/typescript-nodejs/index.ts:88-236 | answers whose keys are all prompt names never carry a `db_knex_orm` key, so the test at line 236 is false for them |
| NodejsGenerator.AskPublicIntendedDiffers | src/typescript-nodejs/index.ts:227 | the intended rule asks exactly when the publishable feature is chosen, and then, for prompted answers, the written one does not |
| NodejsGenerator.ReplaceFirstDash | src/typescript-nodejs/index.ts:243 | replacing a dash keeps the length |
| NodejsGenerator.FirstDash | src/typescript-nodejs/index.ts:243 | the index of the first dash, or the length when there is none |
| NodejsGenerator.ReplaceFirstDashAt | src/typescript-nodejs/index.ts:243 | only the first dash becomes an underscore; every other character is kept |
| NodejsGenerator.ReplaceNoDash | src/typescript-nodejs/index.ts:243 | a dialect without a dash is used as it is |
| NodejsGenerator.ReplaceDashSplit | src/typescript-nodejs/index.ts:243 | a dialect `p-q` with a dash-free `p` becomes `p_q`, later dashes kept |
| NodejsGenerator.KoaMiddlewareFeatures | src/typescript-nodejs/index.ts:231-235 | each middleware `m` becomes `koa_api_<m>`, in order |
| NodejsGenerator.MiddlewareFeaturesInOrder | src/typescript-nodejs/index.ts:231-235 | the middleware features follow the chosen features directly, in answer order |
| NodejsGenerator.DialectExpands | src/typescript-nodejs/index.ts:239-245 | a dialect answer appends `db_knex` and its dialect feature |
| NodejsGenerator.LogtailOrAnalyticsNeedSecrets | src/typescript-nodejs/index.ts:252-267 | logtail logging or an analytics answer appends `secrets_management` |
| NodejsGenerator.KnexFromAnswerKeys | src/typescript-nodejs/index.ts:236-245 | the expansion adds `db_knex` exactly when the answers carry a `db_knex_orm` key or a dialect |
| NodejsGenerator.Expansion | src/typescript-nodejs/index.ts:231-267 | the names pushed onto `features`, in push order: middleware, orm key, dialect, secrets, analytics, logging (MiddlewareFeaturesInOrder, DialectExpands, LogtailOrAnalyticsNeedSecrets, KnexFromAnswerKeys) |
| NodejsGenerator.ExpandFeatures | src/typescript-nodejs/index.ts:231-267 | the callback appends the expansion to `data.features` in place and touches nothing else |
| NodejsGenerator.PushExpansion | src/typescript-nodejs/index.ts:231-267 | the pushes append the whole expansion, in order |
| NodejsGenerator.PushMiddleware | src/typescript-nodejs/index.ts:231-235 | the middleware loop appends one feature per middleware |
| NodejsGenerator.PushKnexAndSecrets | src/typescript-nodejs/index.ts:236-258 | the orm, dialect, secrets and analytics branches append their features in order |
| NodejsGenerator.PushLogging | src/typescript-nodejs/index.ts:259-267 | the logging branch appends its features, and `secrets_management` for logtail |
| NodejsGenerator.Find | src/typescript-nodejs/index.ts:278 | `map.get` finds an entry with that name, or nothing exactly when none has it |
| NodejsGenerator.Put | src/typescript-nodejs/index.ts:292 | `map.set` makes the name map to the new entry and leaves every other name alone |
| NodejsGenerator.PutElements | src/typescript-nodejs/index.ts:292 | `map.set` adds no entry but the one it is given |
| NodejsGenerator.PutUnique | src/typescript-nodejs/index.ts:292 | a map keeps one entry per name |
| NodejsGenerator.LastPackage | src/typescript-nodejs/index.ts:277-293 | the last package of a listing with that name, if any |
| NodejsGenerator.LastListing | src/typescript-nodejs/index.ts:275-295 | the entry of the last feature listing a name, with that feature as source |
| NodejsGenerator.PutListingFind | src/typescript-nodejs/index.ts:277-293 | after one feature's listing a name maps to that listing's last entry for it, unless skipped or unlisted |
| NodejsGenerator.PutFeaturesFind | src/typescript-nodejs/index.ts:275-295 | after all features a name maps to the last listing's entry, unless skipped or unlisted |
| NodejsGenerator.LastListingCons | src/typescript-nodejs/index.ts:275-295 | a later listing overrides an earlier one |
| NodejsGenerator.PutListing | src/typescript-nodejs/index.ts:277-293 | one listing merged in order: each package not in the skip map is set with that feature as source (PutListingFind, PutListingUnique) |
| NodejsGenerator.PutFeatures | src/typescript-nodejs/index.ts:275-295 | every feature's listing merged in features order, features without a listing passed over (PutFeaturesFind, PutFeaturesUnique) |
| NodejsGenerator.Dependencies | src/typescript-nodejs/index.ts:268-295 | the `default` listing, then each feature's listing in order (DependenciesLastWins) |
| NodejsGenerator.DevDependencies | src/typescript-nodejs/index.ts:296-333 | `default`, then the features, skipping names already in dependencies (DevDependenciesDisjoint, DevDependenciesLastWins) |
| NodejsGenerator.DependenciesLastWins | src/typescript-nodejs/index.ts:268-295 | each dependency comes from the last of `default` and the features that lists it, with that source |
| NodejsGenerator.DevDependenciesDisjoint | src/typescript-nodejs/index.ts:299-301 | a name already in dependencies is never a devDependency |
| NodejsGenerator.DevDependenciesLastWins | src/typescript-nodejs/index.ts:296-333 | any other dev name comes from the last dev listing, `default` processed first |
| NodejsGenerator.PutListingUnique | src/typescript-nodejs/index.ts:277-293 | one listing keeps names unique |
| NodejsGenerator.PutFeaturesUnique | src/typescript-nodejs/index.ts:275-295 | all listings keep names unique |
| NodejsGenerator.MergedMapsUnique | src/typescript-nodejs/index.ts:268-333 | both merged maps name each package once |
| NodejsGenerator.FindEntry | src/typescript-nodejs/index.ts:278 | in a map with unique names every entry is found by its name |
| NodejsGenerator.SetListing | src/typescript-nodejs/index.ts:277-293 | the inner loop computes the listing merge |
| NodejsGenerator.SetFeatures | src/typescript-nodejs/index.ts:275-295 | the outer loop computes the feature merge |
| NodejsGenerator.MergeDependencies | src/typescript-nodejs/index.ts:268-333 | the two merge loops compute dependencies, then devDependencies skipping names in dependencies |
| NodejsGenerator.StrLessIrreflexive | src/typescript-nodejs/index.ts:336-342 | no name sorts before itself |
| NodejsGenerator.StrLessTransitive | src/typescript-nodejs/index.ts:336-342 | name order is transitive |
| NodejsGenerator.StrLessTotal | src/typescript-nodejs/index.ts:336-342 | of two distinct names one sorts first |
| NodejsGenerator.StrLessAsymmetric | src/typescript-nodejs/index.ts:336-342 | two names never sort before each other |
| NodejsGenerator.NotLessTransitive | src/typescript-nodejs/index.ts:336-342 | "not after" is transitive |
| NodejsGenerator.SortByName | src/typescript-nodejs/index.ts:336-342 | sorting leaves the array ascending by name and a permutation of its old contents |
| NodejsGenerator.Insert | src/typescript-nodejs/index.ts:336-342 | one insertion step extends the sorted prefix by one, permuting the array |
| NodejsGenerator.Swap | src/typescript-nodejs/index.ts:336-342 | one exchange moves the out-of-order element left, keeping the order facts and the contents |
| NodejsGenerator.PermutationUnique | src/typescript-nodejs/index.ts:335-342 | a permutation of a list with unique names has unique names |
| NodejsGenerator.SortedValues | src/typescript-nodejs/index.ts:335-342 | `[...map.values()]` sorted: ascending by name and the same entries |
| NodejsGenerator.BaseAction | src/typescript-nodejs/index.ts:344-350 | every file of the base templates, dot files included, without `force` or `stripExtensions`; the base folder names no feature |
| NodejsGenerator.FeatureAction | src/typescript-nodejs/index.ts:353-361 | every file of the feature's own folder, dot files included, forced, ".hbs" stripped; reading the folder back gives that feature |
| NodejsGenerator.FeatureFoldersDistinct | src/typescript-nodejs/index.ts:344-361 | two feature actions share a template folder exactly when their features are equal, and none shares the base templates' folder |
| NodejsGenerator.FeatureActions | src/typescript-nodejs/index.ts:343-363 | one base `addMany` then one per feature, duplicates included, in order: 1 + \|features\| actions |
| NodejsGenerator.StoreMerged | src/typescript-nodejs/index.ts:268-342 | for any tables with a `default` listing, the stored lists are the merged maps' entries sorted by name, and the features are untouched |
| NodejsGenerator.BuildActions | src/typescript-nodejs/index.ts:230-364 | the callback expands the features, stores the sorted merged lists (with the tables of lines 14-80) and returns the actions |
| NodejsGenerator.MergedOutputsEntries | src/typescript-nodejs/index.ts:268-342 | the stored lists name each package once, hold the last listing's entry for each name and share no name |
| NodejsGenerator.MergedOutputsComplete | src/typescript-nodejs/index.ts:268-342 | every listed dependency name is stored; every dev name is stored in one of the two lists |
| CurrentValueOrHash.Fingerprint | src/lib/getCurrentValueOrHash.ts:6-29 | a config file: its read text, a failed read rejecting; any other file: the md5 of its bytes, "" for ENOENT, other errors rethrown (ConfigNeverHashes, OtherFilesHashed, MissingFile, OtherErrorsRethrown) |
| CurrentValueOrHash.ReadFile | src/lib/getCurrentValueOrHash.ts:11 | a read succeeds exactly for an existing readable file, giving its bytes; a missing one rejects with ENOENT |
| CurrentValueOrHash.ConfigNeverHashes | src/lib/getCurrentValueOrHash.ts:10-16 | a config file's fingerprint is its decoded text and never depends on the digest; it fails exactly when the read fails |
| CurrentValueOrHash.OtherFilesHashed | src/lib/getCurrentValueOrHash.ts:19-22 | any other readable file is fingerprinted by the md5 of its bytes |
| CurrentValueOrHash.MissingFile | src/lib/getCurrentValueOrHash.ts:10-27 | a missing non-config file gives ""; a missing config file rejects |
| CurrentValueOrHash.OtherErrorsRethrown | src/lib/getCurrentValueOrHash.ts:23-27 | read errors other than ENOENT are rethrown, and any read error of a config file |
| CurrentValueOrHash.SameContentSameFingerprint | src/lib/getCurrentValueOrHash.ts:6-29 | equal reads of paths of the same kind give equal fingerprints |
| CurrentValueOrHash.EmptyConfigLooksMissing | src/lib/getCurrentValueOrHash.ts:10-27 | an empty config file has the same fingerprint as a missing non-config file, "" |
| NewCommand.Coerce | src/commands/new.ts:22 | an array is used as it is, any other value as a singleton |
| NewCommand.SomeInExists | src/commands/new.ts:33 | `some` finds an element among the values exactly when one exists |
| NewCommand.Includes | src/commands/new.ts:21-27 | the block when the value is an element of the coerced array, else nothing (IncludesMembership) |
| NewCommand.IncludesAny | src/commands/new.ts:28-37 | the block when some element of the coerced array is among the middle arguments (IncludesAnyMembership, IncludesAnySingle) |
| NewCommand.Excludes | src/commands/new.ts:38-44 | the block when the value is not an element of the coerced array (ExcludesComplement) |
| NewCommand.IncludesMembership | src/commands/new.ts:21-27 | `includes` renders its block exactly when the value is an element of the coerced array |
| NewCommand.ExcludesComplement | src/commands/new.ts:38-44 | `excludes` renders exactly when `includes` would not |
| NewCommand.IncludesAnyMembership | src/commands/new.ts:28-37 | `includesAny` renders exactly when some coerced element is among the values |
| NewCommand.IncludesAnySingle | src/commands/new.ts:28-37 | with one value `includesAny` agrees with `includes` |
| NewCommand.IncludesAnyUnion | src/commands/new.ts:28-37 | with several values it renders when any of them alone would |
| NewCommand.IncludesAnyNone | src/commands/new.ts:28-37 | with no values it never renders |
| NewCommand.PlanRun | src/commands/new.ts:60-68 | the override's answers or else the prompted ones; only without an override is the destination defaulted, resolved and ensured (OverrideUsedAsIs, PromptedDirectoryEnsured) |
| NewCommand.OverrideUsedAsIs | src/commands/new.ts:60-68 | an override replaces prompting: its answers and destination are used as-is and no directory is ensured |
| NewCommand.PromptedDirectoryEnsured | src/commands/new.ts:60-68 | without an override the prompted answers are used and the ensured directory is the destination passed on |
| NewCommand.GivenDestination | src/commands/new.ts:63-66 | a given destination is resolved against the working directory; the name is not consulted |
| NewCommand.DefaultDestination | src/commands/new.ts:63-66 | a missing or empty destination defaults to `packages/<param-cased name>` and fails exactly when there is no name |
| NewCommand.EmptyDestinationLikeMissing | src/commands/new.ts:63 | an empty destination is treated exactly like a missing one |

## Findings

| source | as written | input that shows it | evidently intended | confidence | as-written member | corrected member |
|---|---|---|---|---|---|---|
| src/typescript-nodejs/index.ts:227 | the `public` prompt is asked when `res.publishable` is truthy, but no prompt is named `publishable`: it is a value of the `features` checkbox | features `["publishable"]`: the answers have no `publishable` key, so the prompt is skipped | ask when `res.features.includes("publishable")` | medium, not executed | NodejsGenerator.PublicNeverAsked | NodejsGenerator.AskPublicIntendedDiffers |

The `"db_knex_orm" in data` test at src/typescript-nodejs/index.ts:236 has
the same shape, since `db_knex_orm` is a feature value, not an answer key. It
has no visible effect: choosing that feature asks for a dialect, and the
dialect branch appends `db_knex` anyway (`NodejsGenerator.DialectExpands`).
The model keeps the key test as written (`Answers.hasDbKnexOrm`).

## Left out

- I/O is an input of the model:
  - the file trees, the fingerprint maps and the live `getHash` are inputs;
  - the `diff` package's hunks and the line-break detection are the
    `DiffTools` parameter of `TextMerge`;
  - `readFile`'s buffer decoding, md5, `path.resolve`, `paramCase` and the
    working directory are function parameters.
- Console output is not modelled: warnings, the conflict list, the
  mismatched-version messages of the dependency merge, and `console.log` of
  the dialect. The inquirer confirmation is the `confirm` argument of
  `TextMerge.WriteConflicts`.
- These are library behaviour and are not modelled: comment-json parsing and
  printing (`parseConfig`, `stringifyConfig`), lodash `cloneDeep`, and
  node-plop's `runPrompts` / `runActions`. JSON numbers are integers.
- ConfigFileHelpers.ApplyChanges works on values, so the two clones cannot
  alias `base`, each other or the nodes' `final` values. The module runs in
  strict mode, where assigning a property of a primitive parent throws a
  `TypeError`, as in the model. Two cases differ: a write through an array
  parent and a `delete` on a primitive parent succeed silently in JavaScript,
  while the model gives a `TypeError` for them.
- ConfigFileHelpers.ApplyAllReplaysCurrent holds of the model, not of
  JavaScript, when one node's path extends another's. The source puts the same
  `final` object into both copies (src/lib/configFileHelpers.ts:94-95), so a
  later conflict node below that path writes into current through it, and
  into the caller's `final` too. For base `{}` and the nodes
  `a := {x: 1}` (no conflict) then `a.x := 2` (conflict), JavaScript ends with
  `current.a.x == 2` and the model with `1`. The node lists `configDiff`
  returns are prefix-free (`ConfigFileHelpers.ConfigDiffSound`), so no node
  writes below another in them.
- Json.Keys lists the members in the order they are stored. JavaScript's
  `Object.keys` lists integer-like keys first, in ascending order. So for
  `{"b": 1, "1": 2}` configDiff visits `"1"` first while the model visits
  `"b"` first. Likewise `ConfigFileHelpers.Assign` appends a new
  integer-like key at the end.
- Json.Lookup reads own members only. JavaScript's `obj[k]` also finds
  inherited properties such as `toString` or `constructor`. A key named
  `toString` that is absent from a document reads as a function in
  JavaScript and as undefined in the model.
- ConfigFileHelpers.ConfigDiff indexes an array or string *before* by a key
  as JavaScript would only for objects. An array or string *before* reads as
  missing there.
- ConfigFileHelpers.ToLower lower-cases ASCII letters only. There is no
  Unicode case mapping.
- Reconcile is a two-pass classification over maps without repeated keys,
  which is what a JavaScript `Map` guarantees. `getHash` is the live lookup,
  with `""` for a missing file.
- NodejsGenerator.BuildActions works with the dependency tables of lines
  14-80 as constants. The merge functions take any table. Three things are
  not modelled:
  - `feature in packageDependencies` also accepts inherited property names
    such as `constructor`;
  - a proof that each of the eight dialect answers names a feature present
    in the table (the general dash rule, `ReplaceDashSplit`, covers their
    names);
  - JavaScript compares strings by UTF-16 code units, while the sort here
    compares characters.
- NodejsGenerator.Answers keeps only the answers the callback reads. `name`
  and the other text answers pass through unread.
- NewCommand.PlanRun models text-valued answers only. Objects and arrays are
  compared by value in the helpers, where JavaScript compares them by
  reference. The unknown-generator error path (`program.error`) and the
  printing of results are not modelled.
- The upgrade command's own setup (reading `.generator/config.json`, calling
  `new` into a temporary directory, reading the hash directories) is left out.
  Those calls are mis-wired against `new`'s and `buildActions`' signatures,
  so the fingerprint maps are taken as given.
