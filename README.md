# helix-py-api in Dafny

A model of the core of `helixapi`, the Python package that edits the
setlists, presets and snapshots of a Line 6 Helix bundle and sends MIDI
commands to the device. The model covers:

- the shared document and the path resolver that every item uses
  (`DataManager`);
- the collections of setlists, presets and snapshots. These cover the
  reordering operations (swap, move, clone), the re-entrant dance between a
  collection's active index and its items' `active` setters, and how the
  collections are wired to one another;
- the item views: names with their 16-character limit, LED colours, reset,
  import, export and standardisation;
- the container file format (`Files`): file types, templates, the
  existence checks, unique names, and the import and export envelope;
- name standardisation (`Standards.apply`);
- bundle import and export;
- the MIDI command table and the target list.

Python's mutable objects are Dafny classes:

- `Document` holds the one JSON tree that all items of a bundle share;
- `DataManager`, `Item`, `Entity`, `Collection`, `Snapshot` and
  `SnapshotSet` follow the source's classes, field by field;
- `Bundle`, `System`, `Targets` and `Commands` follow theirs likewise.

Their methods say exactly how the state changes. Each method is tied to a
pure function of the old state, and the properties the package promises
are proved about those functions as lemmas.

The file system, the JSON, zlib, base64 and CRC-32 codec, the clock, the
mapping table, the preset template and the naming standards are
parameters, as follows:

- a `FileSystem` map;
- a `Codec` record of functions, whose round-trip laws are the `Lawful`
  hypothesis (codec_witness.dfy builds a codec that meets it, so the
  round trips proved under it are not vacuous);
- a `now` integer;
- plain values for the mapping table, the template and the standards.

The MIDI output ports are a log of the messages sent.

Files:

- prelude.dfy: `Option`, `Result`, `Outcome` and the exceptions.
- pystr.dfy: the Python string and list built-ins the source relies on.
- json.dfy: JSON values and subscripts.
- resolver.dfy: `Document` and `DataManager`.
- files.dfy: `FileType`, `TemplatePath` and `Files`.
- standards.dfy: `Standards`.
- led_color.dfy: `LEDColor`.
- items.dfy: `ItemBase`.
- collection.dfy: the `CollectionBase` list operations and the activation
  protocol as functions.
- hierarchy.dfy: `Setlist`, `Preset`, `Setlists` and `Presets`.
- snapshots.dfy: `Snapshot` and `Snapshots`.
- bundle.dfy: `Bundle`.
- midi.dfy: `MIDI.System`, `MIDI.Targets` and `MIDI.Commands`.
- codec_witness.dfy: a byte code for JSON values with its decoder, and a
  codec built from it that meets `Lawful`.

On one point the code is followed over the package's own description. A
snapshot's `active` getter is false only for a snapshot that has no
callback. Every snapshot built by `Snapshots` does have one, and the
callback answers 0 when the preset gave none. So in the model a snapshot
of a collection without a preset is active exactly when its index is 0.

## Model

| member | source | states |
|---|---|---|
| PyStr.Lower | helixapi/utils/files.py:43 | `str.lower()`: same length, upper-case ASCII letters mapped to lower case, nothing else changed |
| PyStr.Upper | helixapi/utils/files.py:65 | `str.upper()`: same length, lower-case ASCII letters mapped to upper case |
| PyStr.Title | helixapi/utils/standards.py:45 | `str.title()`: same length, each character cased from the character before it |
| PyStr.LowerIdempotent | helixapi/utils/standards.py:31 | lower-casing twice is lower-casing once |
| PyStr.NatToString | helixapi/utils/collection_base.py:17 | `str(n)`: non-empty decimal digits, two or more exactly from 10 on |
| PyStr.NatToStringInjective | helixapi/utils/collection_base.py:17 | different numbers have different decimal renderings (so generic export names differ) |
| PyStr.IntToString | helixapi/setlist.py:76 | `str(i)` is never empty |
| PyStr.Split | helixapi/utils/data_manager.py:35 | `s.split(sep)`: at least one piece, and no piece contains the separator |
| PyStr.JoinSplit | helixapi/utils/data_manager.py:35 | joining the pieces of a split with the separator gives back the string |
| PyStr.LastPiece | helixapi/utils/files.py:43 | `s.split(sep)[-1]`: a suffix of `s` without the separator |
| PyStr.LastPieceAfterSep | helixapi/utils/files.py:43 | the last piece of `a + sep + e`, where `e` has no separator, is `e` |
| PyStr.RFind | helixapi/utils/files.py:188 | the last position of the character, or -1 exactly when it does not occur |
| PyStr.SplitExt | helixapi/utils/files.py:188 | `os.path.splitext`: base and extension concatenate to the path; the extension is empty or starts with the last dot |
| PyStr.StripTrailingSlashes | helixapi/utils/files.py:254 | the result is a prefix of the input |
| PyStr.PyIndex | helixapi/utils/collection_base.py:139 | Python list subscripting: defined exactly for -n <= i < n, counting from the end when negative |
| LedColors.Value | helixapi/snapshot.py:4-17 | every colour's value is below 12 |
| LedColors.FromValue | helixapi/snapshot.py:4-17 | `LEDColor(n)` exists exactly for 0 <= n <= 11 and has value n |
| LedColors.ValueRoundTrip | helixapi/snapshot.py:4-17 | values and colours correspond one to one |
| JsonDoc.FloatValueInjective | helixapi/utils/files.py:364-365 | a float `json.load` produces is held in one form per number: equal values are equal floats |
| JsonDoc.Child | helixapi/utils/data_manager.py:56 | `data[key]`: a dict by present string key, a list by in-range integer; `KeyError` and `IndexError` exactly in the missing cases |
| JsonDoc.SetChild | helixapi/utils/data_manager.py:55 | `data[key] = v` succeeds exactly for a dict with a string key or a list with an in-range index, and keeps the container's kind |
| JsonDoc.ChildAfterSetChild | helixapi/utils/data_manager.py:55-56 | a slot just written reads back the written value |
| JsonDoc.ChildOtherSlot | helixapi/utils/data_manager.py:55 | writing one slot leaves every other slot as it was |
| JsonDoc.SetChildSame | helixapi/utils/data_manager.py:55 | writing back the value a slot holds changes nothing |
| JsonDoc.SetChildWhereReadable | helixapi/utils/data_manager.py:55-56 | every slot that can be read can be written |
| JsonDoc.SetChildTwice | helixapi/utils/data_manager.py:55 | a second write to a slot replaces the first |
| JsonDoc.AtOkPutOk | helixapi/utils/data_manager.py:53-58 | every readable path can be written |
| JsonDoc.PutSame | helixapi/utils/data_manager.py:53-58 | writing back the value at a path changes nothing |
| JsonDoc.PutTwice | helixapi/utils/data_manager.py:53-58 | a second write to a path replaces the first |
| JsonDoc.AtAfterPut | helixapi/utils/data_manager.py:53-58 | a value written at a path reads back |
| JsonDoc.PutFrame | helixapi/utils/data_manager.py:53-58 | a write at one path leaves every path that diverges from it unchanged |
| Resolver.KeyOf | helixapi/utils/data_manager.py:39-51 | the subscript a segment stands for is never a negative list index, so each list position has one name |
| Resolver.ConcreteKeys | helixapi/utils/data_manager.py:38-51 | one subscript per segment of the path |
| Resolver.WalkKeepsOrFills | helixapi/utils/data_manager.py:43-58 | a walk leaves the top node as it was or replaces it by a non-empty container |
| Resolver.WalkResultAt | helixapi/utils/data_manager.py:53-56 | the value returned is the value at the substituted path of the resulting document; a write returns what it wrote |
| Resolver.WalkGetAfterSet | helixapi/utils/data_manager.py:53-56 | after a successful write of a value that is not `None`, reading the same path returns that value and changes nothing more |
| Resolver.SubWalkNeedsContainer | helixapi/utils/data_manager.py:57-58 | a walk that descends and leaves the node unchanged needed a non-empty container there |
| Resolver.DataManager.ReadIdempotent | helixapi/utils/data_manager.py:43-58 | a second `_get_data` of the same key finds the document and the value the first one left |
| Resolver.WalkReadIdempotent | helixapi/utils/data_manager.py:43-49 | reading twice is reading once: the first read does every template fill, the second finds the same value and changes nothing |
| Resolver.FillIdempotent | helixapi/utils/data_manager.py:43-49 | the lazy preset fill never overwrites a slot it has already filled |
| Resolver.FillEmptySlotAgain | helixapi/utils/data_manager.py:43-49 | a slot made empty again is filled again with the template |
| Resolver.ReadWithoutPlaceholderIsPure | helixapi/utils/data_manager.py:54-56 | a read through a path without the preset placeholder leaves the document exactly as it was |
| Resolver.FillOnRead | helixapi/utils/data_manager.py:43-49 | reading an empty preset slot stores a copy of the template there and returns it |
| Resolver.WalkFrame | helixapi/utils/data_manager.py:53-58 | a walk changes only locations on its own substituted path and the preset slots it fills: a path that diverges from it keeps its value whenever every preset slot passed before the divergence already holds something |
| Resolver.PresetRenameKeepsAuthor | helixapi/utils/data_manager.py:53-58 | writing `presets.{p}.meta.name` into a filled preset slot leaves `presets.{p}.meta.author` as it was |
| Resolver.WalkSlotFrame | helixapi/utils/data_manager.py:53-58 | a walk changes no slot of the top node except the one its first segment names |
| Resolver.DataManager.PathOf | helixapi/utils/data_manager.py:27 | the mapping lookup succeeds exactly when the kind and the field are in the table; otherwise `KeyError` |
| Resolver.DataManager.Access | helixapi/utils/data_manager.py:26-32 | a field missing from the mapping fails before the document is touched |
| Resolver.DataManager.Navigate | helixapi/utils/data_manager.py:34-58 | the loop over segments leaves exactly the document and result of the recursive walk |
| Resolver.DataManager.FillSlot | helixapi/utils/data_manager.py:42-50 | a `preset_index` segment whose slot is empty gets the preset template written into the document; a missing slot fails and leaves the document as it was |
| Resolver.DataManager.WriteLast | helixapi/utils/data_manager.py:54-57 | at the last segment a non-`None` value is written into the slot and read back; `None` leaves the document unchanged and only reads |
| Resolver.DataManager.GetData | helixapi/utils/data_manager.py:26-28 | `get_data` is an access with no value |
| Resolver.DataManager.SetData | helixapi/utils/data_manager.py:30-32 | `set_data` leaves the walk's document and fails exactly when the walk does |
| Resolver.DataManager.GetAfterSet | helixapi/utils/data_manager.py:30-32 | after `set_data(key, v)` with `v` not `None`, `get_data(key)` returns `v` and changes nothing |
| Files.GetType | helixapi/utils/files.py:43-47 | the type whose extension is the lower-cased text after the last dot, or none exactly when no extension matches |
| Files.GetTypeOfExtension | helixapi/utils/files.py:43-47 | `<base>.<extension>` has that extension's type |
| Files.TypedPathNotItsDirectory | helixapi/utils/files.py:253-254 | a typed path is never its own directory |
| Files.MemberByName | helixapi/utils/files.py:86-89 | the member named case-insensitively, or `ValueError` exactly when no member has that name |
| Files.ExtensionByName | helixapi/utils/files.py:65-68 | succeeds exactly when the upper-cased name is some member's name, and then gives that member's extension; `ValueError` otherwise |
| Files.OnlyTypeWithItsName | helixapi/utils/files.py:65-67 | no two members share an upper-cased name, so `cls[name]` names one member |
| Files.MemberByOwnName | helixapi/utils/files.py:86-89 | each type is found by its own name in any letter case |
| Files.TemplateByTypeName | helixapi/utils/files.py:176-177 | a template exists exactly for bundle, setlist and preset |
| Files.TemplateHasOwnType | helixapi/utils/files.py:130-158 | each template has its own file type, and the template chosen for a path has the path's type |
| Files.CheckNonexisting | helixapi/utils/files.py:251-259 | passes exactly for a typed path whose directory is non-empty, exists and is writable, with the errors in the source's order; a bare file name's directory `""` is missing |
| Files.BareFileNameRefused | helixapi/utils/files.py:254-256 | a path without `/` has the directory `""`, which `os.path.isdir` rejects, so the check fails |
| Files.ImportFileFrame | helixapi/utils/files.py:251-259 | writing one other path, which is no directory, leaves a file that imports importing exactly as before |
| Files.CheckExisting | helixapi/utils/files.py:217-229 | fails in order for an empty path, a missing path, a non-file, an unreadable file, then runs the other check; passes exactly for a readable file |
| Files.NumberedInjective | helixapi/utils/files.py:192-193 | different counters give different candidate names |
| Files.NumberedCounter | helixapi/utils/files.py:192-193 | two numbered candidates that agree carry the same counter |
| Files.UniqueFilename | helixapi/utils/files.py:187-196 | the result does not exist and is the first candidate that does not exist |
| Files.Strip | helixapi/utils/files.py:377 | `bytes.strip()`: no whitespace at either end, never longer, and unchanged when already stripped |
| Files.PopEncoded | helixapi/utils/files.py:373 | the pop succeeds only on a dict with `encoded_data` |
| Files.ImportFile | helixapi/utils/files.py:361-379 | a failed existence check is the error; a preset file is imported with empty metadata |
| Files.WritePretty | helixapi/utils/files.py:438-439 | succeeds exactly when the path is no directory and no read-only file and the value is serializable, and then writes exactly the pretty JSON at the path; a read-only file is `PermissionError` with nothing written; no other file changes |
| Files.StampFields | helixapi/utils/files.py:430-436 | a completed header has the name, the time, the encoded content, its size and its CRC-32 |
| Files.ExportFile | helixapi/utils/files.py:397-439 | only the target path changes; a preset is written as pretty JSON of the content with the metadata untouched; a setlist or bundle is written as its header (`EncodedExportFrom`): the caller's metadata, or for empty metadata the template's header without `encoded_data`, stamped with the name, `now`, the encoded content, its size and CRC-32; non-empty metadata is stamped in place, empty metadata is not updated |
| Files.ExportEncoded | helixapi/utils/files.py:405-439 | the setlist and bundle branch: on success the template exists, the name is found, and the file holds the header seeded from the caller's metadata or (when empty) from the template without `encoded_data`, stamped for the content; non-empty metadata is stamped in place; only the path changes |
| Files.WriteHeader | helixapi/utils/files.py:417-439 | the file written is the pretty JSON of the header stamped for the content; non-empty caller metadata becomes that stamped header, empty metadata is kept; only the path changes |
| Files.ExportImportRoundTrip | helixapi/utils/files.py:382-439 | importing what was just exported gives back exactly the exported content; a header carries the name, `modifieddate` = `now`, and the size and CRC-32 of the compact JSON; it is the caller's updated metadata, or for empty metadata the template's header stamped for the content, without `encoded_data` |
| Files.PresetRoundTrip | helixapi/utils/files.py:399-402 | a preset reads back as the exported content with empty metadata |
| Files.EncodedRoundTrip | helixapi/utils/files.py:417-439 | a setlist or bundle reads back as the exported content; its metadata is the stamped header without `encoded_data`, seeded from the caller's metadata or, when that is empty, from the template; it carries the name, `modifieddate` = `now`, the size and the CRC-32 |
| Files.WriteHeaderRoundTrip | helixapi/utils/files.py:417-439 | a written header reads back with the content, as exactly the stamped header without `encoded_data`; it carries the name and `modifieddate` = `now`, and `decompressed_size` is the length of the compact bytes |
| Files.ImportOfWritten | helixapi/utils/files.py:371-379 | a written header whose `encoded_data` encodes the content imports as that content and the rest of the header |
| CodecWitness.LawfulCodecExists | helixapi/utils/files.py:377-423 | some codec meets every law assumed of `json.dumps`/`json.loads`, zlib, base64 and CRC-32 together, floats, strings and nested dicts included |
| CodecWitness.JsonRoundTrip | helixapi/utils/files.py:377 | the witness's JSON text of any value, followed by any bytes, decodes back to that value and those bytes |
| Files.StrippedHeaderKeeps | helixapi/utils/files.py:373 | popping `encoded_data` keeps the name, modified date, size and CRC fields |
| Standards.ApplyCasing | helixapi/utils/standards.py:40-45 | upper case leaves no lower-case letter, lower case no upper-case letter; any other casing leaves the text; the length is kept |
| Standards.Apply | helixapi/utils/standards.py:14-48 | the loops over entries and patterns compute the replacements in order, then the casing |
| Standards.NoRulesNoChange | helixapi/utils/standards.py:30-45 | a type with no rules keeps the name unchanged |
| Standards.OtherTypesIrrelevant | helixapi/utils/standards.py:30 | changing another type's rules does not change the result |
| Standards.AbsentPatternNoChange | helixapi/utils/standards.py:37 | a pattern that does not occur leaves the text unchanged |
| Standards.AbsentSymbol | helixapi/utils/standards.py:37 | a non-letter absent from the text matches nowhere, whatever the case |
| Standards.WholeNameReplaced | helixapi/utils/standards.py:37 | "New Preset" with the pattern "New Preset" becomes "Preset" |
| Standards.EmptyPatternInterleaves | helixapi/utils/standards.py:37 | an empty pattern inserts the replacement around every character |
| Standards.TitleCaseExample | tests/test_preset.py:183-186 | "New Preset" becomes "Preset" under the test rules with title case |
| Standards.UpperCaseExample | tests/test_preset.py:164-167 | "PreSet 1" becomes "PRESET 1" under the test rules with upper case |
| Standards.LeadExample | tests/test_snapshot.py:82-84 | "Lead" becomes "SOLO" under the snapshot test rules |
| Items.Display | helixapi/utils/collection_base.py:19 | `str(value)`: a string renders as itself, a colour as `LEDColor.<MEMBER>`; it fails exactly on containers and floats |
| LedColors.MemberName | helixapi/snapshot.py:4-17 | every colour has a non-empty upper-case member name |
| LedColors.MemberNameInjective | helixapi/snapshot.py:4-17 | distinct colours have distinct member names |
| Items.StandardizedValue | helixapi/utils/standards.py:30-45 | a string is standardised; a non-string fails at the first pattern `re.sub` applies, then at a casing method it lacks, and passes through unchanged when there is neither |
| Items.NoStandardsPassThrough | helixapi/utils/standards.py:30-32 | a kind without standards leaves any name, string or not, as it was |
| Items.Item.SetName | helixapi/setlist.py:43-45 | a name over 16 characters fails and leaves the document unchanged; otherwise the name is written, failing exactly when the write does |
| Items.Item.ExportFile | helixapi/utils/item_base.py:19-37 | a non-file kind and an empty path fail without change; otherwise exactly the `root` subtree and the metadata go to the export |
| Items.Item.ImportFile | helixapi/utils/item_base.py:39-67 | no path loads the kind's template; the loaded content replaces `root` for setlists and presets and fails for other kinds; the metadata is replaced only on success |
| Items.Item.Standardize | helixapi/utils/item_base.py:69-76 | the read name goes through `StandardizedValue` for the kind and is written back without the length check; a failure leaves the name unwritten |
| Collections.PySwap | helixapi/utils/collection_base.py:76 | the two positions are exchanged and every other position is kept; `IndexError` exactly when either is out of range |
| Collections.SwapPermutes | helixapi/utils/collection_base.py:76 | a swap keeps the multiset of items |
| Collections.SwapTwice | helixapi/utils/collection_base.py:76 | swapping again restores the list |
| Collections.InsertPos | helixapi/utils/collection_base.py:95 | `list.insert` clamps the position into the list |
| Collections.PyMove | helixapi/utils/collection_base.py:94-95 | `pop` then `insert`: fails exactly for an out-of-range source and keeps the length |
| Collections.MoveShape | helixapi/utils/collection_base.py:94-95 | the moved item lands at its new position and the others keep their relative order |
| Collections.MovePermutes | helixapi/utils/collection_base.py:94-95 | a move keeps the multiset of items |
| Collections.MoveCount | helixapi/utils/collection_base.py:94-95 | taking an item out at one position and re-inserting it at another keeps the multiset of items |
| Collections.MoveBack | helixapi/utils/collection_base.py:94-95 | moving to an in-range position and back restores the list |
| Collections.PyClone | helixapi/utils/collection_base.py:114-120 | `IndexError` exactly when either position is outside 0..len; otherwise the target holds the copy and the length is kept |
| Collections.SetIndex | helixapi/utils/collection_base.py:127-135 | the `_active_index` setter keeps the protocol's shape |
| Collections.Activate | helixapi/setlist.py:96-98 | `active = True` keeps the protocol's shape; the callback's notification carries what `Notified` says |
| Collections.Notify | helixapi/setlists.py:22-24 | `_set_active_setlist` keeps the protocol's shape; after the setter one notification is logged, carrying `Notified` of the state the setter left |
| Collections.Notified | helixapi/setlists.py:22-24 | a setlist notification carries `self._active_index` as the setter left it; a preset notification carries the requested index (presets.py:36-38) |
| Collections.ReorderedNotifyExample | helixapi/setlists.py:22-24 | after a swap and a clone, activating position 0 settles on index 1, and both notifications carry 1, not 0 |
| Collections.NotifyIdentity | helixapi/utils/collection_base.py:128-135 | on an unreordered collection, a new in-range index clears the old flag, sets the new one and notifies twice |
| Collections.NotifySame | helixapi/utils/collection_base.py:128 | setting the current index changes nothing but one notification |
| Collections.NotifyOutOfRange | helixapi/utils/collection_base.py:129-135 | an out-of-range index is recorded and activates nothing |
| Collections.NotifyKeepsOneActive | helixapi/utils/collection_base.py:127-135 | with one item active, activating k leaves exactly k active at index k |
| Collections.ActivateIdentity | helixapi/setlist.py:96-98 | `items[k].active = True` makes k the active index and the only active item |
| Collections.SwappedPairNeverSettles | helixapi/setlist.py:96-98 | after two linked items are swapped, activating the other one recurses until the recursion limit |
| Collections.IndexOf | helixapi/utils/collection_base.py:143-144 | `list.index`: the first position of the item, present exactly when it is a member |
| Collections.SetItem | helixapi/setlists.py:64-65 | the `active_item` setter keeps the protocol's shape; its notifications carry what `Notified` says |
| Collections.SetItemIsNotify | helixapi/setlists.py:64-65 | on an unreordered collection, `active_item = items[k]` is `active_index = k` |
| Collections.SwapKeepsDistinct | helixapi/utils/collection_base.py:76 | a swap keeps the items distinct |
| Collections.MoveKeepsDistinct | helixapi/utils/collection_base.py:94-95 | a move keeps the items distinct |
| Collections.CloneKeepsDistinct | helixapi/utils/collection_base.py:120 | a clone with a new copy keeps the items distinct |
| Collections.StartUp | helixapi/setlists.py:16-20 | a new collection ends with item 0 the only active item, index 0, and two notifications of 0, whichever order notify and activate come in |
| Hierarchy.Entity.constructor | helixapi/setlist.py:5-10 | a new setlist or preset is inactive and holds its index and callback |
| Hierarchy.Entity.ResetSetlist | helixapi/setlist.py:71-76 | the setlist template is imported, then the setlist is renamed "SETLIST n+1" under the name rule; a failed import leaves item and metadata unchanged |
| Hierarchy.Entity.ResetPreset | helixapi/preset.py:154-166 | the preset template is imported with its own name; a failed import leaves item and metadata unchanged |
| Hierarchy.Entity.ActiveSnapshotIndex | helixapi/preset.py:39-52 | the active snapshot is the document's `current_snapshot` field |
| Hierarchy.Entity.SetActiveSnapshotIndex | helixapi/preset.py:54-56 | writing the active snapshot writes `current_snapshot`, failing exactly when the write does |
| Hierarchy.Entity.Copy | helixapi/utils/collection_base.py:120 | `deepcopy` gives new objects down to a new document with equal contents, detached from the collection |
| Hierarchy.GenericPathsDiffer | helixapi/utils/collection_base.py:17 | generic export names of different positions differ |
| Hierarchy.NewEntities | helixapi/setlists.py:14 | a full list of new, inactive, linked items, item i at index i on the shared document |
| Hierarchy.Collection.constructor | helixapi/setlists.py:11-20 | a new collection is full, unreordered, with item 0 the only active item, active index 0 and two notifications of 0 |
| Hierarchy.Collection.Start | helixapi/setlists.py:16-20 | the initial activation leaves item 0 active and two notifications |
| Hierarchy.Collection.StartNotifying | helixapi/setlists.py:16-20 | notifying and then activating position 0 leaves item 0 the only active item, index 0, and two notifications of 0 |
| Hierarchy.Collection.StartActivating | helixapi/presets.py:31-34 | activating and then notifying position 0 leaves item 0 the only active item, index 0, and two notifications of 0 |
| Hierarchy.Collection.SetFlag | helixapi/setlist.py:98 | `active = False` changes that one flag and nothing else |
| Hierarchy.Collection.SetIndex | helixapi/utils/collection_base.py:127-135 | the `_active_index` setter does what `Collections.SetIndex` says |
| Hierarchy.Collection.ActivateAt | helixapi/setlist.py:96-98 | `items[p].active = True` does what `Collections.Activate` says: callback first, then the flag |
| Hierarchy.Collection.Notify | helixapi/setlists.py:22-24 | `active_index = k` does what `Collections.Notify` says: the setter, then the MIDI notification of the settled index (setlists) or of `k` (presets) |
| Hierarchy.Collection.ActiveItem | helixapi/utils/collection_base.py:138-139 | the item at the active index, counting from the end when negative; `IndexError` when out of range |
| Hierarchy.Collection.SetActiveItem | helixapi/setlists.py:56-65 | the `active_item` setter does what `Collections.SetItem` says |
| Hierarchy.Collection.Swap | helixapi/utils/collection_base.py:60-76 | the items become `PySwap` of the old items; nothing else changes |
| Hierarchy.Collection.Move | helixapi/utils/collection_base.py:78-95 | the items become `PyMove` of the old items; nothing else changes |
| Hierarchy.Collection.Clone | helixapi/utils/collection_base.py:97-120 | out of range: `IndexError` and no change; otherwise the target holds a deep copy of the source |
| Hierarchy.Collection.ImportFiles | helixapi/utils/collection_base.py:22-33 | the kind and count checks fail without change; on success item k took the metadata of path k for every k below both lengths |
| Hierarchy.Collection.ExportFiles | helixapi/utils/collection_base.py:8-20 | the kind check fails without change; the recorded paths are `<type>_<k>.<ext>` (generic names), each holding a file, or names new to the disk (unique names), which never overwrite an existing file; with lawful encoders every exported file imports back as the `root` value written to it |
| Hierarchy.Collection.ExportOne | helixapi/utils/collection_base.py:15-20 | one export changes only its own path, which is the generic name or a name that did not exist; the outcome, files and metadata are those of `Files.ExportFile` on the entity's `root` field (a failed read writes nothing); a success leaves a file, and with lawful encoders it imports back as the value written |
| Hierarchy.NewPresets | helixapi/presets.py:11-34 | a new preset collection of setlist s is full, at index 0, with preset p at coordinates (s, p) |
| Hierarchy.NewPresetsAll | helixapi/setlist.py:10 | one preset collection per setlist index, each over the same document at its own index, no two sharing a preset |
| Hierarchy.NewLibrary | helixapi/setlist.py:10 | each setlist's presets are built over the same document at the setlist's index, and no two collections share a preset |
| Hierarchy.NotifyOne | helixapi/presets.py:26 | activating a preset in one setlist leaves every other setlist's preset states unchanged |
| PresetSnapshots.PyEquals | helixapi/snapshot.py:126 | Python `==` between a value and an integer: integers by value, booleans as 0 and 1, floats by numeric value, anything else unequal |
| PresetSnapshots.ListIndex | helixapi/snapshots.py:74 | `items[v]`: an integer or boolean in range picks a position; out of range is `IndexError`; other values are a `TypeError` |
| PresetSnapshots.Snapshot.IsActive | helixapi/snapshot.py:117-127 | active exactly when the preset's persisted index equals this index; index 0 without a preset |
| PresetSnapshots.Snapshot.SetActive | helixapi/snapshot.py:129-138 | `True` makes this index the active one through the collection; `False` changes nothing |
| PresetSnapshots.Snapshot.SetLedColor | helixapi/snapshot.py:97-115 | only an LED colour is accepted; anything else fails without a write |
| PresetSnapshots.SnapshotSet.constructor | helixapi/snapshots.py:11-44 | eight new snapshots, snapshot i at index i, on the shared document at the preset's coordinates |
| PresetSnapshots.SnapshotSet.GetActiveIndex | helixapi/snapshots.py:86-96 | the preset's `current_snapshot`, or 0 without a preset |
| PresetSnapshots.SnapshotSet.SetActiveIndex | helixapi/snapshots.py:98-112 | the index is written through the preset; unless that fails, every flag becomes (index == k) and `change_to_snapshot(k)` is sent |
| PresetSnapshots.SnapshotSet.ActiveItem | helixapi/snapshots.py:66-74 | the snapshot at the persisted index, with the read's error or the subscript's error |
| PresetSnapshots.SnapshotSet.SetActiveItem | helixapi/snapshots.py:76-84 | a non-member is a `ValueError` with no change; otherwise the member's first position becomes active |
| PresetSnapshots.SnapshotsOf | helixapi/preset.py:30-37 | a preset's snapshots read and write the active snapshot through that preset's document |
| Bundles.ImportSource | helixapi/bundle.py:96-101 | no path gives the bundle template; a `.hlb` path gives itself; any other path gives nothing |
| Bundles.Bundle.constructor | helixapi/bundle.py:27-43 | the bundle starts empty, with no reloads |
| Bundles.Bundle.Import | helixapi/bundle.py:84-105 | a non-bundle path fails without change; a failed load fails without change; otherwise data and metadata are replaced and the callback receives exactly the new data |
| Bundles.Bundle.Export | helixapi/bundle.py:65-82 | an empty or non-`.hlb` path fails without change; otherwise the current data and metadata are exported |
| Bundles.Bundle.Name | helixapi/bundle.py:45-53 | succeeds exactly when the metadata is a dict whose `meta` is a dict holding `name`, and gives that value; a missing `meta` is `KeyError`, a non-dict metadata is `TypeError` |
| Bundles.Bundle.SetNameAsWritten | helixapi/bundle.py:55-63 | the setter as written changes `data.meta.name` and never the metadata |
| Bundles.Bundle.SetName | helixapi/bundle.py:55-63 | the corrected setter writes `metadata.meta.name`, so a name set reads back |
| Bundles.RenameNotReadBack | helixapi/bundle.py:53-63 | renaming "A" to "B" with the setter as written leaves the getter at "A" |
| Midi.Broadcast | helixapi/midi.py:242-243 | one message per port, in the ports' order |
| Midi.BroadcastAppend | helixapi/midi.py:242-243 | sending to two lists one after the other is sending to their concatenation |
| Midi.BroadcastNothing | helixapi/midi.py:242 | an empty target list sends no messages |
| Midi.MatchedMembers | helixapi/midi.py:166-172 | a saved name is kept exactly when it is an available port |
| Midi.MatchedAppend | helixapi/midi.py:166-172 | matching keeps the saved order |
| Midi.MatchedAllAvailable | helixapi/midi.py:166-172 | when every saved target is available, all of them are kept |
| Midi.Added | helixapi/midi.py:205-207 | `add` appends exactly an available name not yet present |
| Midi.RemoveFirst | helixapi/midi.py:220-221 | `remove` keeps the list when the name is absent |
| Midi.RemoveFirstCount | helixapi/midi.py:220-221 | `remove` takes out exactly one occurrence of the name and nothing else (as multisets) |
| Midi.RemoveFirstAround | helixapi/midi.py:220-221 | removing from `a + [x] + b` with `x` not in `a` leaves `a + b` |
| Midi.RemoveFirstSplits | helixapi/midi.py:220-221 | what comes before and after the first occurrence is kept |
| Midi.AddThenRemove | helixapi/midi.py:198-222 | removing a name just added restores the list |
| Midi.RemoveFromNoDup | helixapi/midi.py:220-221 | in a list without duplicates, removal takes the name out entirely and keeps the list duplicate-free |
| Midi.System.SendCc | helixapi/midi.py:59-71 | one control change is sent to the port |
| Midi.System.SendPc | helixapi/midi.py:73-84 | one program change is sent to the port |
| Midi.System.SendCcPc | helixapi/midi.py:86-103 | the control change is sent before the program change, on the same port |
| Midi.Targets.constructor | helixapi/midi.py:151-154 | the targets start as the saved names that are available, with nothing saved yet |
| Midi.Targets.LoadTargets | helixapi/midi.py:156-172 | the loop keeps exactly the available saved names, in order |
| Midi.Targets.Add | helixapi/midi.py:198-211 | the list becomes `Added` of the old list, and a changed list is saved |
| Midi.Targets.Remove | helixapi/midi.py:213-223 | the list becomes `RemoveFirst` of the old list, and it is saved when the name was present |
| Midi.Commands.SendToEach | helixapi/midi.py:242-243 | the loop sends the message to every target in order |
| Midi.Commands.ChangeToSetlist | helixapi/midi.py:235-243 | CC on channel 0, control 69, value = index, to each target |
| Midi.Commands.ChangeToPreset | helixapi/midi.py:246-254 | PC on channel 0, program = index, to each target |
| Midi.Commands.ChangeToSnapshot | helixapi/midi.py:257-265 | CC on channel 0, control 69, value = index, to each target |
| Midi.Commands.NextPreset | helixapi/midi.py:268-273 | CC 72 with value 64 to each target |
| Midi.Commands.PreviousPreset | helixapi/midi.py:276-281 | CC 72 with value 0 to each target |
| Midi.Commands.NextSnapshot | helixapi/midi.py:284-289 | CC 69 with value 8 to each target |
| Midi.Commands.PreviousSnapshot | helixapi/midi.py:292-297 | CC 69 with value 9 to each target |
| Midi.Commands.ToggleToe | helixapi/midi.py:300-305 | the corrected toggle: CC 59 with value 0 to each target |
| Midi.Commands.ToggleTuner | helixapi/midi.py:308-313 | the corrected toggle: CC 68 with value 0 to each target |
| Midi.CommandAsWritten | helixapi/midi.py:243 | the command as written sends nothing and fails exactly when there is a target |
| Midi.CommandAsWrittenFails | helixapi/midi.py:243 | with one target, the command as written fails where the intended one sends one message |
| Midi.ToggleAsWritten | helixapi/midi.py:304-305 | the toggle as written always fails and sends nothing |
| Midi.ToggleAsWrittenFails | helixapi/midi.py:304-305 | with one target, the toggle as written sends nothing where the intended one sends one message |

## Left out

- Input and output: files, the JSON, zlib and base64 libraries, CRC-32
  and the clock are not run. The file system is a map, the codec is a
  record of functions with round-trip laws, and the time is a parameter.
- The settings file, `mappings.yaml`, the templates and the standards file
  are read from disk by the source. Here they are parameters:
  - the mapping table;
  - the preset template;
  - the naming standards;
  - the saved MIDI targets.
- The maximum counts are 8 setlists, 128 presets and 8 snapshots.
  `helixapi/constants.py` is not part of this model, so these values are
  stated, not taken from it.
- The MIDI singleton and the `mido` ports: messages are appended to a log.
  `mido`'s range checks on channel, control and value are not modelled.
- MIDI notifications from a collection are kept in that collection's own
  log. They are not routed through the shared `Commands` object, so their
  interleaving across collections is not modelled. A logged
  `Change(level, k)` stands for the corrected command
  (`Midi.Commands.ChangeToSetlist` or `ChangeToPreset`) with the index
  the source passes: the settled `_active_index` for setlists, the
  requested index for presets (`Collections.Notified`). As written,
  `_set_active_setlist` and `_set_active_preset` raise `AttributeError`
  (midi.py:243 and 254) as soon as a target is present. The same holds
  for `change_to_snapshot` (midi.py:265), reached from
  `Snapshots._set_active_index`. See "## Findings".
- `Targets.save` and the `ports` property: they only touch the settings
  file and the port list.
- Regular expressions: a standard's patterns are treated as literal text.
  Only literal text occurs in the package's standards.
- Letter case is ASCII only: `PyStr.Lower`, `PyStr.Upper`, `PyStr.Title`
  and the case-insensitive matching of `Standards.ReplaceAll` (through
  `Standards.SameIgnoringCase`) map only the ASCII letters. Python's
  Unicode case mappings are not modelled: `"é".upper()` is `"É"`, and
  `"ß".upper()` is `"SS"`, which changes the length that
  `Standards.ApplyCasing` keeps.
- Replacement text: `Standards.ReplaceAll` inserts a standard's
  replacement as it is. `re.sub` (standards.py:37) would expand backslash
  escapes in it (`\1`, `\n`); the standards in the package's test
  fixtures (tests/conftest.py:67-91) have none.
- `os.path.abspath`: the generic and unique export paths are joined but not
  made absolute.
- Some of the source's failure behaviour is only approximated:
  - a `json.dump` that fails halfway leaves an empty file in the model,
    where Python leaves a partial one;
  - indexing a JSON string is refused, where Python returns a character;
  - dictionary keys are strings only;
  - a `None` file path is the empty string.
- Hierarchy.Collection.ImportFiles: states the metadata each imported item
  receives, not the new `root` of each item's document. That part is stated
  for one item by `Items.Item.ImportFile`.
- Hierarchy.Collection.ExportOne: for unique names, states only that the
  written path did not exist before or that nothing changed. It does not
  state which unique candidate was chosen.
- Hierarchy.Collection.ExportFiles: the content of each exported file is
  stated against a ghost record of the `root` value each entity wrote at
  its turn, not against the document after the loop. A later entity's read
  may fill template slots of the shared document, so the final document
  is not restated for earlier entities.
- Items.Display: `str()` of a container or a float (Python's `repr`
  formatting) is not rendered; those cases fail.
- Floating-point numbers: a JSON number with a fraction or exponent is the
  decimal `json.dumps` writes for it, in shortest form (`JsonDoc.Float`).
  Binary rounding to a double, `NaN` and infinities are not modelled.
- File modes: a file the model writes is readable and writable afterwards.
  An existing write-only file keeping its mode when it is overwritten is
  not modelled.
- Hierarchy.Entity.Copy: `deepcopy` of a whole entity is modelled as a copy
  of its own document, detached from the collection (`linked` false).
  - The copied setlist's own preset collection is not copied.
  - The notifications of the phantom collection that the copy's callback
    refers to are not modelled.
- Swap, move and clone change only the order of the entities in the
  collection. As in the source, the shared document is not reordered.
- `__getitem__`, `__setitem__`, `__len__`, `__iter__` and `__contains__`
  are plain sequence operations on `items`.
- The swap, move and clone of `Snapshots` are those of `CollectionBase`.
  They are modelled once, on `Setlists` and `Presets`.
- The activation protocol runs with a fuel bound standing for Python's
  recursion limit (1000). Exhausting it is `RecursionError`; the exact
  depth at which Python raises is not modelled.
- Construction:
  - a setlist's presets are built by `Hierarchy.NewLibrary` and
    `Hierarchy.NewPresets`;
  - a preset's snapshots are built by `PresetSnapshots.SnapshotsOf`;
  - the entity objects do not hold a reference to their child collection.
- A standalone `Snapshot` built without callbacks (its `active` getter is
  then `False`) is not modelled: every snapshot belongs to a
  `SnapshotSet`.
- `Bundle.__init__` calling `import_bundle` is the constructor followed by
  `Bundles.Bundle.Import`.
- `Helix` wiring the bundle's callback to rebuild the setlists: the callback
  is appended to the bundle's `reloads` log.
- Logging calls.

## Findings

| source | as written | input that shows it | evidently intended | confidence | as-written member | corrected member |
|---|---|---|---|---|---|---|
| helixapi/midi.py:243 | every command sends through `self.targets.system`, but `Targets` stores its system as `_system` (midi.py:153) | one available target, then `change_to_setlist(0)`: `AttributeError` and no message | one message per target through the targets' system | high (not executed) | Midi.CommandAsWrittenFails | Midi.Commands.ChangeToSetlist |
| helixapi/midi.py:304-305 | `toggle_toe` and `toggle_tuner` loop over `self.devices`, which `Commands` does not have (also midi.py:312-313) | any call of `toggle_toe()`: `AttributeError` and no message | one message per target, as the other commands | high (not executed) | Midi.ToggleAsWrittenFails | Midi.Commands.ToggleToe |
| helixapi/bundle.py:63 | the `name` setter writes `data['meta']['name']` while the getter (bundle.py:53) and the bundle export read `metadata['meta']['name']` | data and metadata both named "A"; set the name to "B": the getter still returns "A" | the setter writes the location the getter reads | medium (not executed) | Bundles.RenameNotReadBack | Bundles.Bundle.SetName |
