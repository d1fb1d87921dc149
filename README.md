# Character-sheet record: entries, default rows, save and restore

This project models the state-management core of the *lets-crawl* character
sheet (`app.js`). The sheet holds a fixed list of scalar fields (the
`#characterInfo` inputs) and six repeated sections: attacks, skills,
achievements, inventory, player notes and GM notes. Each section has a fixed,
ordered field schema of 5, 4, 3, 3, 1 and 1 fields. The user adds entries
(`addAttack`, `addSkill`, …) and removes them behind a confirmation dialog.
`ensureDefaultRows` gives every empty section one blank entry.
`collectCharacterData` turns the sheet into a positional document and
`restoreCharacterData` rebuilds the sheet from one.

Modules, one per concern of the source:

- `schema.dfy`, module `Schema`: the section kinds, their label lists and arities.
- `entries.dfy`, module `Entries`: an entry as its list of values. It holds the
  `values[i] || ""` padding (`FieldValue`, `Pad`) and `createEntry`
  (`CreateEntry`, a loop proved equal to `Pad`).
- `document.dfy`, module `Documents`: the saved document. Every key is optional,
  since a loaded file may omit any of them.
- `sheets.dfy`, module `Sheets`: the whole record as a value (`Sheet`) and what
  each operation does to it (`AddEntry`, `RemoveEntry`, `EnsureDefaults`,
  `Collect`, `Restored`). It also holds the lemmas: the default-row policy,
  idempotence, and the save/restore round trip.
- `record.dfy`, module `Records`: the page's record as a class `Record`. It has
  one `seq` field for the scalars and one per section container, updated in
  place. Every method is proved to follow the matching function of `Sheets`.

Two behaviours of `app.js` are easy to miss. First, `values || []` in
`clearAndRestore` replaces only a missing (falsy) key; it does not handle every
key that is not a list. Second, launching the form and then adding an attack
saves the attack *after* the blank default row: `launchPlayerForm` has already
added that row and `addAttack` appends (`LaunchThenAddAttack`).

## Model

| member | source | states |
|---|---|---|
| Schema.Labels | app.js:82-123 | every schema passed by an `addX` function has at least one label, and no label repeats within a schema |
| Schema.Arity | app.js:79-125 | the schemas passed by the six `addX` functions have 5, 4, 3, 3, 1 and 1 fields, never none |
| Entries.FieldValue | app.js:55 | the or-default on field i is `values[i]` when that value exists (an empty string gives "" either way) and "" past the end |
| Entries.Pad | app.js:44-55 | a new entry has exactly one value per label; value i is `values[i]` when present; missing trailing values are "" |
| Entries.PadTruncatesOrExtends | app.js:44-55 | extra values are dropped (truncation) and short inputs are extended by blanks |
| Entries.PadExact | app.js:44-55 | values of exactly the schema's length are kept unchanged |
| Entries.PadIdempotent | app.js:44-55 | building an entry from an entry's own values gives the same entry |
| Entries.CreateEntry | app.js:40-60 | the per-label loop of `createEntry` yields one value per label in label order, as `Pad` defines |
| Sheets.AddEntry | app.js:79-125 | adding appends one entry, `values` padded to the section's arity, at the end of its own section; the entries already there keep their places; the other sections and the scalars are unchanged |
| Sheets.AddEntryKeepsWellFormed | app.js:79-125 | the appended entry has its section's arity, so a record whose entries all have their arity keeps that after an add |
| Records.Record.constructor | app.js:18-21 | the page state `launchPlayerForm` starts from: a fixed number of scalar inputs, all "", and six empty section containers, every entry (vacuously) at its arity |
| Records.Record.Add | app.js:80-84 | `appendChild(createEntry(labels, values))` changes the record as `AddEntry` says and keeps every entry at its arity |
| Records.Record.AddAttack | app.js:79-86 | appends one attack entry built from `values` to the attacks section |
| Records.Record.AddSkill | app.js:88-95 | appends one skill entry built from `values` to the skills section |
| Records.Record.AddAchievement | app.js:97-104 | appends one achievement entry built from `values` to the achievements section |
| Records.Record.AddItem | app.js:106-113 | appends one inventory entry built from `values` to the inventory section |
| Records.Record.AddPlayerNote | app.js:115-119 | appends one player note built from `values` to the player notes section |
| Records.Record.AddGMNote | app.js:121-125 | appends one GM note built from `values` to the GM notes section |
| Sheets.Removed | app.js:67 | removing entry i leaves one fewer entry; those before i stay in place and those after it shift down by one, keeping their relative order |
| Sheets.RemoveEntry | app.js:65-69 | a declined confirmation changes nothing; a confirmed one removes only that entry of that section, keeping the others in order; the other sections and the scalars are unchanged; an emptied section is not refilled |
| Sheets.RemoveEntryKeepsWellFormed | app.js:65-69 | removing an entry, confirmed or not, keeps every remaining entry at its section's arity |
| Records.Record.Remove | app.js:62-69 | the remove handler leaves the object unchanged when the dialog is declined, and otherwise follows `RemoveEntry` |
| Sheets.Blank | app.js:135 | the row `addFn([])` creates has the section's arity and every field "" |
| Sheets.BlankRow | app.js:135 | the blank rows written out: 5, 4, 3, 3, 1 and 1 empty fields |
| Sheets.EnsureOne | app.js:132-136 | `ensure` touches only its own section, which becomes `DefaultSection` of what it held; the scalars and the other sections are unchanged |
| Sheets.DefaultSection | app.js:135 | the section after `ensure` is never empty: a non-empty section is kept as it is, an empty one becomes exactly one blank row |
| Sheets.EnsureInSteps | app.js:138-143 | the six `ensure` calls, run one after another in the fixed order, give the section-by-section policy `EnsureDefaults` |
| Sheets.EnsureDefaults | app.js:131-144 | after the policy, each of the six sections is `DefaultSection` of its old entries (kept, or one blank row if it was empty); the scalars are unchanged |
| Sheets.EnsureDefaultsPolicy | app.js:131-144 | every section is non-empty afterwards; a non-empty section is untouched; an empty one holds exactly one all-"" entry |
| Sheets.EnsureDefaultsFixesSettled | app.js:135 | on a record with no empty section the policy changes nothing |
| Sheets.EnsureDefaultsIdempotent | app.js:131-144 | running the policy twice is the same as running it once |
| Sheets.EnsureDefaultsKeepsWellFormed | app.js:131-144 | the rows the policy adds have their section's arity |
| Records.Record.Ensure | app.js:132-136 | adds a blank row only when the container has no children |
| Records.Record.EnsureDefaultRows | app.js:131-144 | the record becomes `EnsureDefaults` of the old one: no section is empty and every entry keeps its arity |
| Records.Record.LaunchPlayerForm | app.js:18-21 | showing the form applies the default-row policy, so every section has at least one entry |
| Sheets.Collect | app.js:150-167 | the document holds the scalars in form order and every section key with its entries in display order; every saved entry has its schema's arity |
| Sheets.Rebuild | app.js:174-178 | refilling a section gives one entry per value list, each of the section's arity |
| Sheets.RebuildAppend | app.js:177 | each `forEach` step appends the padded next list at the end |
| Sheets.RebuildPrefix | app.js:177 | the same step, stated on a prefix of the lists |
| Sheets.RebuildAt | app.js:177 | entry i of a rebuilt section is list i padded to the arity |
| Sheets.RebuildOfEntries | app.js:174-178 | lists that already have the section's arity are rebuilt unchanged |
| Documents.OrEmpty | app.js:171-177 | the fallbacks for an absent key (the optional chain `characterInfo?.` and the `[]` default of `values`): a present list is used as it is, an absent one counts as the empty list |
| Sheets.Loaded | app.js:170-185 | after clearing and refilling, section k is rebuilt from the list under its key (an absent key counts as empty) and the scalars are `characterInfo` padded to the number of inputs |
| Sheets.LoadedInSteps | app.js:174-185 | clearing and refilling the six sections one by one, in the fixed order, gives the loaded record whatever they held before |
| Sheets.Restored | app.js:169-189 | a restored record keeps the number of scalar inputs and has no empty section |
| Sheets.RestoredSpec | app.js:169-189 | restoring keeps the number of scalars; scalar i is `characterInfo[i]` if present, otherwise "" (extras ignored, a missing list gives all ""); each section is its list rebuilt in order, or one blank row if that is empty; every entry has its arity; no section is empty |
| Records.Record.RestoreInfo | app.js:170-172 | sets scalar input i to `characterInfo[i]` when present, otherwise "", and changes no section |
| Records.Record.ClearAndRestore | app.js:174-178 | empties one container, then refills it from the document's lists in order; the other sections and the scalars are unchanged |
| Records.Record.Restore | app.js:169-189 | `restoreCharacterData` leaves the record equal to `Restored` of the document: every entry at its arity, no section empty |
| Sheets.RoundTrip | app.js:150-189 | restoring the collected document of a well-formed record gives back the same record; the only change is one blank row in each section that was empty |
| Sheets.RoundTripSettled | app.js:150-189 | a record with no empty section survives collect-then-restore unchanged |
| Records.SaveAndLoad | app.js:196-225 | saving a record and loading the saved document back leaves it equal to `EnsureDefaults` of what it was |
| Sheets.SkillPadded | app.js:88-95 | `addSkill(["X"])` creates the entry `["X", "", "", ""]` |
| Sheets.PartialDocument | app.js:169-189 | restoring `{ skills: [["X"]] }` gives all-"" scalars, the skill `["X","","",""]` and one blank row in each other section |
| Sheets.LaunchThenAddAttack | app.js:18-21 | after the form is launched on an empty record and an attack is added, the saved attacks are the blank default row and then the new attack; every other section is saved as its blank row |

## Left out

- Screen switching (`setActiveScreen`, `goToLauncher`, the splash handler) and the screen part of `launchPlayerForm`: these are class toggles on DOM elements and hold no record state.
- Collapsible sections (`toggleSection`) and printing (`printCharacter`, `setTimeout`, `window.print`): presentation only.
- What `createEntry` builds for display (labels, spans, the Remove button, `textarea` versus `input`): only the values and their count are modelled. The multi-line flag of the note schemas is therefore not represented, although it decides whether the browser sanitizes a value (next line).
- Newline sanitization by `<input>` elements: assigning `field.value` on an `<input>` (app.js:50-52, app.js:55) strips CR and LF characters, so a loaded `"a\nb"` shows as `"ab"` on the page. The same holds for the `#characterInfo` inputs (app.js:171). The model stores field values verbatim, so `Restored`, `Loaded` and `Record.Restore` keep line breaks there. The round trip is unaffected, because values typed into an `<input>` contain no line breaks.
- The confirmation dialog is the boolean parameter `confirmed` of `Remove`. An entry is named by its position in its section rather than by its DOM node.
- The missing-container branch of `ensure` (`if (!el) return`) is not modelled: the model's record always has all six sections.
- The number of `#characterInfo` inputs comes from the page's HTML, which is not part of this model. It is the constructor's `fieldCount` and stays fixed.
- Editing a field by typing into it is not an operation in `app.js`. The lemmas hold for every well-formed record, whatever values it holds.
- Saving and loading I/O: the Blob, object URL and download anchor, the file picker, `file.text()`, `JSON.stringify` and `JSON.parse`. `SaveAndLoad` passes the collected document straight to `Restore`; it assumes the JSON text round-trips. A parse failure throws before `restoreCharacterData` runs, so it never reaches the record.
- Ill-typed documents: the model's document has string leaves and list-valued keys. A truthy non-list section value, which makes `forEach` throw, and non-string leaves, which `||` coerces, are outside the model. So is a `null` document.
