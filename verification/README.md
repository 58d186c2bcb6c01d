# ShowMembersTable, modelled in Dafny

The repository is a Unity overlay (`ShowMembersTable`). It polls a JSON file of
team members and draws it as a table. Every call of `OnGUI` (Unity makes one per GUI event, possibly several per rendered frame) does two things:

- **RetrieveData** computes an MD5 checksum of the file. Only when the checksum
  differs from `latestMd5` does it re-read the text, strip trailing commas with
  a regular expression, and parse the result with `JsonUtility`. A busy flag
  `isReadingFile` guards the step. Any exception is caught and leaves the
  cached table as it was.
- **Render** lays the table out as fixed-height cells. Their width is derived
  from the screen width and the number of column headers.

The model has six modules:

- `Wrappers`: `Option`, which stands for a nullable reference or a throwing call.
- `Members`: the `TeamMember` / `TeamMembersTable` records (`Record`, `Table`).
- `TrailingCommas`: the substitution `\,(?=\s*?[\}\]])` → `""`, as a recursive
  function on `seq<char>`. A reference definition (`IsTrailingComma`, an
  existential over the position of the closer) sits beside it, and a lemma
  connects the two.
- `ChangeGate`: `RetrieveData` as a pure step function over
  `(latestMd5, isReadingFile, table)`. It returns the new state and the path
  the call took. `Run` and `CountPaths` fold it over a sequence of file
  snapshots.
- `Layout`: `Render` as a pure function from screen width and table to the
  ordered sequence of draws `(rect, text, band)`. One draw stands for one
  `GUIDrawRect` call.
- `Overlay`: `OnGui`, one `OnGUI` call, composing the two.

Foreign calls are parameters:

- The two file reads are `Option` inputs in a `FileSnapshot`, with `None`
  meaning the read threw. There are two of them because the code reads the
  file twice: `File.ReadAllBytes` inside `ComputeHash`, then
  `File.ReadAllText`.
- The checksum is an arbitrary function from bytes to a string (`Host.hash`).
- `JsonUtility.FromJson` is an arbitrary function from text to
  `ParseThrew | Parsed(Option<Table>)` (`Host.parse`). It can throw, or it can
  return a table reference, which may be null.

Behaviour worth noting:

- The initial checksum is `null`, the field default of line 18
  (`Watcher.latestMd5 = None`), so the first call always counts as a change.
- The title is one rectangle, two rows high and as wide as the screen, with
  the fixed text "Team Members" (line 77). The table's own `Title` is never
  shown.
- A null table, or a table with no column headers, throws on line 72 (a null
  dereference or a division by zero) before anything is drawn.
  `Layout.Render` returns `None` in that case.

## Model

| member | source | states |
|---|---|---|
| TrailingCommas.Repair | src/Assets/Scripts/ShowMembersTable.cs:128 | The repair never makes the text longer. |
| TrailingCommas.ClosesAheadMeansCloserAfterWs | src/Assets/Scripts/ShowMembersTable.cs:128 | The lookahead `(?=\s*?[\}\]])` holds exactly when some `}` or `]` ahead is preceded only by `\s` characters. |
| TrailingCommas.TrailingCommaIsLookaheadMatch | src/Assets/Scripts/ShowMembersTable.cs:128 | A position matches the pattern exactly when it holds a comma whose next non-whitespace character is `}` or `]`. |
| TrailingCommas.RepairErasesExactlyTrailingCommas | src/Assets/Scripts/ShowMembersTable.cs:128 | The output is the input with exactly the trailing commas deleted. Every other character is kept, in order. |
| TrailingCommas.RepairLength | src/Assets/Scripts/ShowMembersTable.cs:128 | Output length is input length minus the number of trailing commas. |
| TrailingCommas.RepairFixpointIffNoTrailingComma | src/Assets/Scripts/ShowMembersTable.cs:128 | The repair leaves a text unchanged if and only if the text has no trailing comma. |
| TrailingCommas.RepairIsSinglePass | src/Assets/Scripts/ShowMembersTable.cs:128 | Commas qualify on the original text: `,,]` becomes `,]`, and a second pass would give `]`. So the repair is not idempotent. |
| TrailingCommas.RepairIgnoresStringLiterals | src/Assets/Scripts/ShowMembersTable.cs:128 | A comma before `]` inside a JSON string literal is removed as well. |
| TrailingCommas.RepairRemovesTrailingCommaInObject | src/Assets/Scripts/ShowMembersTable.cs:128 | `{"a":1,}` is repaired to `{"a":1}`. |
| TrailingCommas.RepairRemovesTrailingCommaInArray | src/Assets/Scripts/ShowMembersTable.cs:128 | `[1,2, \n]` is repaired to `[1,2 \n]`. Whitespace before the closer is kept, and so is the comma between elements. |
| ChangeGate.RetrieveData | src/Assets/Scripts/ShowMembersTable.cs:115-141 | If the guard is set, nothing happens. If the checksum equals `latestMd5`, nothing changes. The parser is called exactly when the guard is clear, the bytes read, the checksum differs and the text read. A successful parse replaces the table and the checksum together, with the parse of the repaired text and the new checksum. Every other path keeps both. The guard ends clear on every path that entered. |
| ChangeGate.Run | src/Assets/Scripts/ShowMembersTable.cs:115-141 | Over any sequence of calls, a clear guard stays clear, and a set guard freezes the state. |
| ChangeGate.RunStaysExplained | src/Assets/Scripts/ShowMembersTable.cs:127-130 | After any run, the stored checksum and the cached table come from one and the same snapshot seen so far, or are both still the initial ones. |
| ChangeGate.FromInitialExplained | src/Assets/Scripts/ShowMembersTable.cs:18-20 | From the field defaults, every reachable state is explained by a single snapshot, or both fields are still null. |
| ChangeGate.NoReloadNoChange | src/Assets/Scripts/ShowMembersTable.cs:124-139 | A run with no successful reload leaves the checksum and the table unchanged. |
| ChangeGate.GuardNeverObservedSet | src/Assets/Scripts/ShowMembersTable.cs:120-138 | Starting with the guard clear, no call ever finds the guard set. |
| ChangeGate.UnchangedFileParsedAtMostOnce | src/Assets/Scripts/ShowMembersTable.cs:123-131 | `n` calls on an unchanged, well-formed file parse it once when its checksum is new, and never when it is not. |
| ChangeGate.RejectedFileRetriedEveryCall | src/Assets/Scripts/ShowMembersTable.cs:124-139 | A file the parser rejects is re-read and re-parsed on every call, and the state stays as it was. |
| Layout.TruncDiv | src/Assets/Scripts/ShowMembersTable.cs:72 | C# integer division rounds toward zero. For a non-negative dividend the quotient is the floor. For a negative dividend it is the ceiling. |
| Layout.HeaderDraws | src/Assets/Scripts/ShowMembersTable.cs:80-83 | Header `i` is drawn at `(i*w, 60, w, 30)` with its text, left to right. |
| Layout.DataDraws | src/Assets/Scripts/ShowMembersTable.cs:86-92 | Record `i`, field `k` is drawn at `(k*w, 30*(i+3), w, 30)`. Records go top to bottom, and fields go in the order ID, Name, Role, Nickname. |
| Layout.Render | src/Assets/Scripts/ShowMembersTable.cs:72-92 | A null table or an empty header list throws before any draw. Otherwise there are exactly `1 + |H| + 4*|R|` draws: first the title `(0, 0, W, 60)` with the text "Team Members", then the headers, then the records, with cell width `W / |H| + 1`. |
| Layout.ColumnsCoverScreen | src/Assets/Scripts/ShowMembersTable.cs:72 | The one-pixel over-allocation makes the columns span more than the screen width, by at most one pixel per column. |
| Layout.RenderCellsDoNotOverlap | src/Assets/Scripts/ShowMembersTable.cs:72-92 | On a screen of non-negative width, no two drawn rectangles overlap. |
| Overlay.OnGui | src/Assets/Scripts/ShowMembersTable.cs:32-36 | One call refreshes, then renders. It draws only when the component holds a table. |
| Overlay.UnchangedFileRedrawsSame | src/Assets/Scripts/ShowMembersTable.cs:32-36 | Two calls over the same well-formed file produce the same state and the same draws. |
| Overlay.NoTableNoDraws | src/Assets/Scripts/ShowMembersTable.cs:72 | A component without a table keeps throwing in `Render`, drawing nothing, on every call until some call reloads the file. |

## Left out

- Colours, fonts, `Texture2D`, `GUIStyle`, `GUI.Box` and `GUI.Label` (lines 44-69 and 102-109) are host GUI side effects. A draw keeps only its rectangle, its text and its band (title, header or content), which selects the style.
- `Path.Combine(Application.streamingAssetsPath, …)` (line 119), `File.ReadAllBytes` and `File.ReadAllText` are I/O. They are represented only by their results in `FileSnapshot`.
- MD5 and `Encoding.Default.GetString` (lines 148-156) are a foreign digest and a lossy encoding. They are an arbitrary function compared by equality. Two contents with equal checksum strings are therefore indistinguishable to the gate, as in the code.
- `JsonUtility.FromJson` (line 129) is a foreign parser. It is an arbitrary function, and JSON itself is not modelled.
- `Debug.Log` (lines 126 and 137) is a diagnostic and is not modelled. Line 126 logs on the `Reloaded`, `ReadFailed` and `ParseFailed` paths of `ChangeGate.Path`. Line 137 logs on the `HashFailed`, `ReadFailed` and `ParseFailed` paths.
- The host's scheduling of `OnGUI` calls is left out. A run is just a sequence of calls, and the guard is a plain boolean, since nothing runs concurrently.
- Members.Table: the lists and records JsonUtility fills are taken to be non-null. A null `ColumnHeaders` would throw at line 72 before any draw. A null `Data` would make Render draw the title and every header and then throw at line 86. A null record would throw at line 88, after the earlier rows and before any cell of its own row. The draw list cannot express such a partial output.
- Layout.Render: does not model the 32-bit overflow of `i * horizontalSpace` or `verticalSpace * (i + 3)`. It also does not model the conversion of these ints to the `float` fields of `Rect`. Both are exact for any screen and table of displayable size.
- TrailingCommas.IsWs: follows the current Unicode separator categories. It does not include U+180E, which older character tables of some runtimes count as a space separator.

