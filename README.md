# DD Image Writer: drive bookkeeping and command building

This project models the logic inside the `DDImageWriter` window of the image writer (`main.cpp`). The window keeps three pieces of state:

- `currentDrives`: the set of root paths of the drives seen by the last poll.
- The drive selection box: a list of entries, each with a visible text and a data string.
- The output pane: a log that only ever grows.

Three actions change that state:

- **populateDrives** rebuilds the box from a poll of the mounted volumes. It offers every volume that is valid, ready and not the root volume `/`, as `"name (path)"` with the path as its data. When nothing qualifies, it shows the single entry `No drives available` with empty data.
- **scanForDrives** reconciles the box with a fresh poll:
  - It appends an entry and logs `Drive connected: …` for each qualifying path that was not known.
  - For each known path that vanished, it removes the first entry carrying that path and logs `Drive disconnected: …`.
  - It replaces the known set with the new one.
  - After an empty poll it leaves only the placeholder.
- **startDDProcess** refuses an empty drive, an empty image file, or the drive `/`. Otherwise it builds `dd if='<image>' of='<drive>' bs=<bs> status=progress`, escapes every `"` as `\"`, and logs `Executing: ` followed by the escaped command.

The model has three modules:

- `Drives` (drives.dfy): the volume and entry values, plus the functions that say what the box holds after each action. These include an order-free reference definition, `DropFirsts`, for the removal pass. The module also holds the lemmas about these functions.
- `Command` (command.dfy): the input check, the `dd` command line, the quote escaping and its inverse.
- `ImageWriter` (writer.dfy): the window as a class. It has the fields `currentDrives`, `items` and `log`, and its methods follow the source's loops: a `foreach` over the poll, a `foreach` over the vanished paths, and an index search with `removeItem` and `break`. Each method is proved against the functions of `Drives` and `Command`.

Points of behaviour that the model makes explicit:

- The vanished paths are visited in an unspecified order, because a `QSet` has no defined iteration order. `ScanForDrives` therefore returns that order as a ghost value. The resulting box is proved to be the same for every order.
- A path that occurs twice in one poll gets two entries. When it vanishes, only the first of them is removed (`CountAfterDrops`).
- `ddCommand.replace` changes the command in place. The `Executing:` line therefore shows the escaped command.
- The code excludes only the volume whose root path is `/`. It derives no `/dev/diskN` device identifier: the `dd` output operand is the volume's root path as it stands.

## Model

| member | source | states |
|---|---|---|
| `Drives.Qualifies` | main.cpp:107 | A volume is offered exactly when it is valid, ready, and its root path is not `/` (the same test as main.cpp:125). |
| `Drives.Description` | main.cpp:109 | The entry text is the display name, then ` (`, the root path, and `)`. Name and path can each be read back from their positions. |
| `Drives.EntryFor` | main.cpp:109-110 | The entry for a volume carries its root path as data and always differs from the `No drives available` placeholder, since its text ends in `)`. |
| `Drives.QualifyingPaths` | main.cpp:106-111 | The set of qualifying root paths of a poll never contains `/`. |
| `Drives.QualifyingPathsExactly` | main.cpp:124-127 | A path is in the new drive set exactly when some volume of the poll with that root path is valid, ready and not `/`. |
| `Drives.Arrivals` | main.cpp:124-133 | Every entry a poll adds has a qualifying path that was not already known, and is never the placeholder. |
| `Drives.ArrivalsCover` | main.cpp:124-133 | The paths of the added entries are exactly the qualifying paths minus the known ones. |
| `Drives.ArrivalsOffer` | main.cpp:128-131 | Each qualifying path that is not yet known gets a non-placeholder entry. |
| `Drives.ArrivalsOfKnown` | main.cpp:128 | A poll whose qualifying paths are all known adds no entry. |
| `Drives.Announce` | main.cpp:132 | There is one `Drive connected: ` line per added entry, with that entry's text, in order. |
| `Drives.PopulatedList` | main.cpp:101-119 | The box after populating is never empty. Each entry is the placeholder or offers a qualifying path. |
| `Drives.PopulatedListShape` | main.cpp:101-119 | After populating, the box is exactly `[placeholder]` iff nothing qualified. The placeholder appears iff nothing qualified. Otherwise the entries' paths are exactly the qualifying paths. No entry carries `/`. |
| `Drives.FirstIndex` | main.cpp:141-142 | Gives the index of the first entry whose data is the path, or -1 when no entry carries it. |
| `Drives.RemoveFirst` | main.cpp:141-146 | One search-and-remove: the box without the entry at `FirstIndex`, or unchanged when that is -1. |
| `Drives.RemoveFirstEffect` | main.cpp:141-147 | One search-and-remove leaves the box as it was when no entry carries the path. Otherwise it removes exactly one entry. Every entry with other data stays, and nothing is added. |
| `Drives.LineFor` | main.cpp:143-145 | One search-and-remove logs at most one line. It logs a line exactly when some entry carries the path, and the line is `Drive disconnected: ` followed by the text of an entry carrying it. |
| `Drives.Departures` | main.cpp:139-145 | The disconnect lines of a removal pass in visiting order: at most one per visited path, each `Drive disconnected: ` followed by the text of an entry of the box that carries a visited path. |
| `Drives.DropFirsts` | main.cpp:138-149 | Order-free reference for the whole removal pass: it never lengthens the box. |
| `Drives.DropFirstsLength` | main.cpp:138-149 | The removal pass drops at most one entry per vanished path. |
| `Drives.VanishStep` | main.cpp:139-148 | One pass of the removal loop extends, all together, the reference result, the log of disconnect lines and the visiting order. |
| `Drives.RemoveFirstDropFirsts` | main.cpp:139-148 | Removing the first entry of one more vanished path extends the order-free reference result, so visiting order does not matter. |
| `Drives.LineForAfterDrops` | main.cpp:143-145 | The disconnect line for a path names its first entry as it was before any other path was removed. |
| `Drives.DropFirstsSubset` | main.cpp:139-148 | The removal pass only removes entries. |
| `Drives.DropFirstsKeeps` | main.cpp:139-148 | An entry whose path did not vanish survives the removal pass. |
| `Drives.DropFirstsAppend` | main.cpp:128-148 | Entries appended in this scan are untouched by its removals, because their paths were not known. |
| `Drives.DeparturesAppend` | main.cpp:138-145 | The entries appended in this scan do not change the disconnect lines. |
| `Drives.CountAfterDrops` | main.cpp:141-147 | Per vanished path, exactly one entry is removed if any carries it, and none if none does. Other paths keep all their entries. |
| `Drives.DropFirstsKeepsOrder` | main.cpp:139-148 | Apart from entries of vanished paths, the box keeps its entries in their relative order. |
| `Drives.ScanList` | main.cpp:121-158 | The box after a rescan. After a non-empty poll it has lost at most one entry per vanished path and gained at most one per polled volume. |
| `Drives.ScanListNoRoot` | main.cpp:125-157 | A rescan never puts an entry with data `/` into the box. |
| `Drives.ScanListOffers` | main.cpp:121-158 | After a rescan every drive of the new poll is offered by a non-placeholder entry. |
| `Drives.Rescan` | main.cpp:121-158 | A rescan whose qualifying paths are exactly the known set changes neither the box nor the log. |
| `Drives.ScanIdempotent` | main.cpp:121-158 | Two rescans with the same poll give the same box. The second adds no entry. A repeated empty scan stays the placeholder. |
| `Drives.PopulateThenScan` | main.cpp:48-74 | At construction, the rescan right after populating leaves the box unchanged when the poll did not change. |
| `Drives.ScanKeepsPlaceholder` | main.cpp:154-157 | As written: the box `[placeholder]`, no known drive, then a poll with one USB volume gives `[placeholder, "USB (/Volumes/USB)"]`. |
| `Drives.CorrectedScanList` | main.cpp:151-157 | Corrected rescan: after an empty poll the box is the placeholder alone. Otherwise the placeholder is gone, and every entry left is one the rescan as written keeps. |
| `Drives.CorrectedScanListShape` | main.cpp:154-157 | Corrected rescan: the placeholder is present iff no drive is known. Every known drive is offered and `/` never is. |
| `Command.DDCommandLine` | main.cpp:178 | The command line is `dd if='`, the image file, `' of='`, the drive, `' bs=`, the block size and ` status=progress`. Image file and drive stand unaltered in their quoted operands. |
| `Command.EscapeQuotes` | main.cpp:183 | The escaped text is longer by the number of `"` characters, does not start with `"`, and has a `\` before every `"`. |
| `Command.UnescapeEscapeQuotes` | main.cpp:183 | Escaping loses nothing: unescaping gives back the original text. |
| `Command.PrepareDD` | main.cpp:168-183 | Start refuses exactly an empty drive, an empty image file or `/`. Otherwise its command unescapes to the `dd` line. |
| `Command.PrepareDDCorrect` | main.cpp:168-183 | Start refuses exactly an empty drive, an empty image file or `/`. Otherwise the command is the escaped `dd` line: quote-count longer, every `"` after a `\`, and it unescapes to the `dd` line. |
| `Command.CurrentData` | main.cpp:168 | With nothing selected the drive is empty. A non-empty drive is the data of an entry of the box. |
| `Command.PlaceholderRefused` | main.cpp:168-175 | With the placeholder selected, or nothing selected, Start refuses. |
| `ImageWriter.DDImageWriter.constructor` | main.cpp:42-74 | Construction populates and then rescans. The log holds a connect line for each drive of the second poll that the first did not offer. Then come the disconnect lines, in some order that visits each vanished path once. If the two polls agree, the box is the populated box and the log is empty. |
| `ImageWriter.DDImageWriter.PopulateDrives` | main.cpp:101-119 | The known set becomes the qualifying paths and the box becomes the populated list. The placeholder is present iff the set is empty. The log is unchanged and the invariant holds. |
| `ImageWriter.DDImageWriter.ScanForDrives` | main.cpp:121-158 | The known set becomes the new poll's, and the box is `ScanList` of the old box. The log gains the connect lines, then one disconnect line per vanished listed path, in visiting order. The invariant holds. |
| `ImageWriter.DDImageWriter.AddArrivals` | main.cpp:122-135 | The first pass collects the qualifying paths. It appends and logs an entry for each one not known, in poll order. |
| `ImageWriter.DDImageWriter.RemoveVanished` | main.cpp:137-149 | The vanished paths are each visited once. The box becomes the order-free reference result, and the log gains one line per path found. |
| `ImageWriter.DDImageWriter.RemoveFirstEntry` | main.cpp:141-148 | The index search removes exactly the first entry carrying the path, logs its text, and stops. When no entry carries the path, nothing changes. |
| `ImageWriter.DDImageWriter.ScanForDrivesCorrected` | main.cpp:121-158 | The corrected rescan also drops the placeholder when a drive is present. The placeholder is then present iff no drive is known. |
| `ImageWriter.DDImageWriter.StartDDProcess` | main.cpp:167-185 | Returns `PrepareDD` of the selected entry's data. It logs `Executing: ` with the escaped command on success, and changes nothing on refusal. |
| `ImageWriter.DDImageWriter.AppendOutput` | main.cpp:189-192 | Standard output of the running command is appended to the log as it is. |
| `ImageWriter.DDImageWriter.AppendError` | main.cpp:194-197 | Standard error is appended to the log after `Error: `. |

## Left out

- Widget creation, labels, buttons, layouts, signal/slot wiring and `main` (main.cpp:45-47, main.cpp:50-72, main.cpp:76-98, main.cpp:199-208): GUI glue with no logic. The populate at main.cpp:48 and the rescan at main.cpp:74 are modelled by the constructor.
- The operating system's volume enumeration: each poll is an input sequence of `(rootPath, displayName, isValid, isReady)` records.
- The 5-second timer (main.cpp:69-71): one scan is one method call.
- Launching the command (main.cpp:181-186): `bash -c`, the `osascript` privilege wrapper and its shell quoting are foreign process calls. The model stops at the escaped `dd` command.
- The file dialog of `selectImageFile` (main.cpp:160-165) is user-interface I/O. The image path is a parameter.
- The block-size choices (main.cpp:52) are constant UI data. The block size is a parameter.
- The warning dialog on refused input is modelled as the `None` result, with no other effect.
- How `QComboBox` moves its current index when entries are added or removed is not modelled. Start takes the selected index as a parameter, and an index outside the list reads as empty data.
- The output pane is a sequence of appended strings. Rich-text interpretation by `QTextEdit` is not modelled.
- `QString::arg` is modelled as plain concatenation. Its single-pass multi-argument form does not re-substitute `%` sequences that occur in names or paths.

## Findings

| source | as written | input that shows it | evidently intended | confidence | as-written member | corrected member |
|---|---|---|---|---|---|---|
| main.cpp:128-133 | A rescan appends new drive entries but never removes the `No drives available` placeholder. The placeholder is only reset when the new poll is empty. | The box is `[placeholder]` with no known drive. A poll then holds one valid, ready volume at `/Volumes/USB` named `USB`. The box becomes `[placeholder, "USB (/Volumes/USB)"]`. | As after `populateDrives`, the placeholder is shown exactly when no drive is available. | medium (not executed) | `Drives.ScanKeepsPlaceholder` | `ImageWriter.DDImageWriter.ScanForDrivesCorrected` |
