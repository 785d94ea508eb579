# PromptGenerator core in Dafny

PromptGenerator is a WinUI desktop app that builds an image-generation prompt
from a catalog of choices and sends it to an MCP ("Model Context Protocol")
server called `genimage`. This project models the three pieces of logic at
its core and proves what they promise.

- **The selection model** (`PromptUIGenerator`, module `PromptUI`). The
  catalog has three levels: main category, sub-category, then `{name, prompt}`
  choices. It is laid out as a header per main category, followed by rows of
  at most two combo boxes. Each combo box starts with the untagged
  "選択解除" (clear selection) item. Choosing an item writes its prompt into
  the `selections` dictionary under `category-subCategory`; clearing removes
  that key. The prompt text is the free-text seed (`charactor`) followed by
  every non-empty selection value, joined with `", "`.
- **The selections dictionary** (module `Dictionaries`). It is laid out the
  way .NET's `Dictionary<string, string>` lays out its entries: an entries
  array plus a free list of freed slots. This matters because the dictionary's
  enumeration order decides the order of the prompt.
- **The Generate handler** (`MainWindow.Run`, module `MainWindow`). It unwraps
  the tool's reply in layers: an outer array, the first item's `text`, the
  inner JSON document, `success == true`, then an `output` string. Each
  failure maps to its own status message. A full success writes the decoded
  image to a path built from a sanitised prompt and a timestamp (module
  `SavePaths`).
- **The MCP client** (`PGMcpClient`, module `McpClient`). It checks the
  configuration for `mcpServers.genimage` and keeps its `command` and `args`.
  Launching the server and calling the `generate_image` tool are gated on
  that check.

JSON appears as an already-parsed value (module `JsonValues`). Textual
parsing is a function parameter whose error result stands for
`JsonException`. An exception that the source does not catch is modelled as
an outcome of its own: `Unhandled` in `MainWindow`, `ConfigThrows` in
`McpClient`.

## Model

| member | source | states |
|---|---|---|
| JsonValues.LastMember | PromptGenerator/MainWindow.xaml.cs:72 | a property lookup finds nothing exactly when no member has the name; otherwise it returns the value of the last member with that name |
| JsonValues.TryGetProperty | PromptGenerator/MainWindow.xaml.cs:78 | the lookup throws exactly on a non-object; otherwise it is found or missing as the member list says |
| JsonValues.LookupUnique | PromptGenerator/PGMcpClient.cs:55 | a name that appears only once in an object is found with that member's value; `McpClient.ConfigRoundTrip` uses it for the `command` lookup |
| Dictionaries.Set | PromptGenerator/PromptUIGenerator.cs:179 | `selections[key] = value` keeps the dictionary well-formed, maps `key` to `value` and leaves every other key's value unchanged |
| Dictionaries.Remove | PromptGenerator/PromptUIGenerator.cs:183 | `Remove(key)` keeps the dictionary well-formed, unmaps `key`, leaves other keys alone, and is a no-op when the key is absent |
| Dictionaries.GetFindsLiveEntry | PromptGenerator/PromptUIGenerator.cs:179-183 | a key is found exactly when a live entry holds it, and the value found is that entry's value |
| Dictionaries.OccupiedLive | PromptGenerator/PromptUIGenerator.cs:202 | enumeration yields at most one entry per slot, and exactly the live entries: an entry is enumerated if and only if a slot holds it |
| Dictionaries.SetOverwritesInPlace | PromptGenerator/PromptUIGenerator.cs:179 | overwriting a present key changes its value at its own enumeration position; nothing is duplicated or moved |
| Dictionaries.RemoveDropsOnlyThatEntry | PromptGenerator/PromptUIGenerator.cs:183 | removing a present key drops exactly its entry from the enumeration and keeps the rest in order |
| Dictionaries.ReinsertReusesFreedEntry | PromptGenerator/PromptUIGenerator.cs:176-184 | clearing a key and then choosing it again gives the same dictionary as overwriting it directly |
| Dictionaries.FreedEntryTakenByNewKey | PromptGenerator/PromptUIGenerator.cs:202 | after a removal, enumeration is not insertion order: a new key takes the freed slot and is enumerated before older keys |
| Dictionaries.SetWithoutRemovals | PromptGenerator/PromptUIGenerator.cs:179 | with no removal in the history, assignment enumerates exactly like an insertion-ordered map (overwrite in place, else append) |
| Dictionaries.SetAllInsertionOrder | PromptGenerator/PromptUIGenerator.cs:202 | a history of assignments from an empty dictionary enumerates keys in first-insertion order, each with its latest value |
| PromptUI.NameIndex | PromptGenerator/PromptUIGenerator.cs:77 | a dictionary key is found at the first position holding it, and is missing exactly when no position holds it |
| PromptUI.Put | PromptGenerator/PromptUIGenerator.cs:77 | an indexer assignment during deserialisation keeps the names as they were (the name was present) or appends the name; the name then maps to the new value, every other name keeps its value, and names stay distinct |
| PromptUI.Collapse | PromptGenerator/PromptUIGenerator.cs:77 | deserialising an object's members into a Dictionary gives distinct names in first-occurrence order, each mapped to the value of its last occurrence |
| PromptUI.CollapseDistinct | PromptGenerator/PromptUIGenerator.cs:77 | members whose names are already distinct deserialise unchanged |
| PromptUI.Deserialize | PromptGenerator/PromptUIGenerator.cs:77 | the deserialised catalog has distinct main-category names, in first-occurrence order, and distinct sub-category names in every main category |
| PromptUI.DeserializeLastWins | PromptGenerator/PromptUIGenerator.cs:77 | a repeated main category keeps the sub-categories of its last occurrence, themselves deserialised; an absent name stays absent |
| PromptUI.DeserializeDistinct | PromptGenerator/PromptUIGenerator.cs:77 | a document without repeated names at either level deserialises to its members as written |
| PromptUI.SelectionKey | PromptGenerator/PromptUIGenerator.cs:173 | the key is the category name, then '-', then the sub-category name |
| PromptUI.SelectionKeyInjective | PromptGenerator/PromptUIGenerator.cs:173 | the key `category-subCategory` tells widgets apart when category names contain no '-' |
| PromptUI.SelectionKeyCollision | PromptGenerator/PromptUIGenerator.cs:173 | with a '-' in a category name, two different widgets share one key |
| PromptUI.BuildComboBox | PromptGenerator/PromptUIGenerator.cs:155-170 | a combo box has 1 + n items: first the untagged "選択解除" item, then item j+1 showing choice j's name and tagged with its prompt, in document order |
| PromptUI.Layout | PromptGenerator/PromptUIGenerator.cs:116-135 | n sub-categories give (n+1)/2 rows, each holding one or two cells |
| PromptUI.LayoutRow | PromptGenerator/PromptUIGenerator.cs:116-135 | row r holds sub-categories 2r and 2r+1 in columns 0 and 1, or 2r alone when it comes last |
| PromptUI.LayoutPlacement | PromptGenerator/PromptUIGenerator.cs:135 | sub-category i sits in row i/2 and column i%2, with its title, key and combo items |
| PromptUI.LayoutSnoc | PromptGenerator/PromptUIGenerator.cs:121-131 | adding one more sub-category opens a new row exactly when its index is even, and otherwise joins the last row |
| PromptUI.GridStep | PromptGenerator/PromptUIGenerator.cs:119-191 | one iteration of the layout loop turns the layout of the first i sub-categories into the layout of the first i+1 |
| PromptUI.Render | PromptGenerator/PromptUIGenerator.cs:81-84 | the panel gains at least one child per main category, the first of them the first category's header |
| PromptUI.RenderNoErrors | PromptGenerator/PromptUIGenerator.cs:81-84 | rendering a catalog adds no error text |
| PromptUI.Loaded | PromptGenerator/PromptUIGenerator.cs:72-99 | loading adds nothing exactly for a null document or one without categories; it adds an error text exactly when reading or deserialising threw; its headers are the distinct main-category names in first-occurrence order |
| PromptUI.RenderHeaders | PromptGenerator/PromptUIGenerator.cs:81-113 | the header texts on the panel are exactly the main-category names, one per category, in catalog order |
| PromptUI.FragmentsNonEmpty | PromptGenerator/PromptUIGenerator.cs:202-204 | the collected selection values are all non-empty, and none are collected exactly when every value is empty |
| PromptUI.Join | PromptGenerator/PromptUIGenerator.cs:206 | the joined text starts with the first part and ends with the last; over non-empty parts it is "" exactly when there are no parts |
| PromptUI.Compose | PromptGenerator/PromptUIGenerator.cs:197-206 | the prompt is "" exactly when the seed and every selection value are empty; a non-empty seed leads it, and is all of it when no selection value is non-empty |
| PromptUI.ComposeAppendsNewSelection | PromptGenerator/PromptUIGenerator.cs:197-206 | with no removal in the history, choosing a value for an unset sub-category appends `, value` to the prompt (just `value` if the prompt was empty) |
| PromptUI.EmptyValueComposesAsCleared | PromptGenerator/PromptUIGenerator.cs:202-204 | storing an empty value under a key composes the same prompt as removing the key |
| PromptUI.VisibleFragments | PromptGenerator/PromptUIGenerator.cs:202-204 | walking the entries and skipping freed slots and empty values meets exactly the non-empty values in enumeration order |
| PromptUI.ComposePrompt | PromptGenerator/PromptUIGenerator.cs:197-206 | the loop builds the seed, if non-empty, followed by the non-empty values in enumeration order, joined with ", " |
| PromptUI.SelectionChanged | PromptGenerator/PromptUIGenerator.cs:176-184 | a selected item with a Tag stores the Tag under the widget's key; any other selection removes the key; other keys are unchanged |
| PromptUI.ClearingRemovesOnlyThatKey | PromptGenerator/PromptUIGenerator.cs:180-184 | choosing "選択解除", or no item, removes exactly the widget's key, and changes nothing if the key was absent |
| PromptUI.ChoosingStoresPrompt | PromptGenerator/PromptUIGenerator.cs:164-179 | choosing item j+1 stores choice j's prompt under the widget's key (a choice without a prompt clears it) |
| PromptUI.PromptUIGenerator.constructor | PromptGenerator/PromptUIGenerator.cs:23-24 | a new generator has no selections and an empty seed |
| PromptUI.PromptUIGenerator.Initialize | PromptGenerator/PromptUIGenerator.cs:26-40 | an existing catalog file is loaded into the panel; a missing one is replaced by the text "{}" and leaves the panel as it was |
| PromptUI.PromptUIGenerator.LoadAndGenerateUI | PromptGenerator/PromptUIGenerator.cs:72-99 | the panel gains what Loaded says: the sections of the deserialised catalog in order; a null document adds nothing; an unreadable one adds the error text with the exception's message |
| PromptUI.PromptUIGenerator.GenerateCategories | PromptGenerator/PromptUIGenerator.cs:81-84 | the loop over the deserialised dictionary adds the sections of all main categories, in enumeration order |
| PromptUI.PromptUIGenerator.CreateMainCategory | PromptGenerator/PromptUIGenerator.cs:101-193 | the panel gains the category header followed by its sub-categories, two per row |
| PromptUI.PromptUIGenerator.UpdatePromptText | PromptGenerator/PromptUIGenerator.cs:195-207 | the prompt text becomes the composition of the current seed and selections |
| PromptUI.PromptUIGenerator.OnSeedChanged | PromptGenerator/PromptUIGenerator.cs:42-46 | a seed change stores the new seed and recomputes the prompt from the current state |
| PromptUI.PromptUIGenerator.OnSelectionChanged | PromptGenerator/PromptUIGenerator.cs:174-186 | a selection change updates the dictionary as SelectionChanged says, then recomputes the prompt |
| MainWindow.DecodeInner | PromptGenerator/MainWindow.xaml.cs:78-92 | the inner document escapes the handler exactly when it is not an object; otherwise it ends in the success failure, the output failure or image data |
| MainWindow.DecodeDocument | PromptGenerator/MainWindow.xaml.cs:68-101 | the "empty or not an array" failure happens exactly when the reply is not an array or is an empty one; an escaping exception needs a non-empty array |
| MainWindow.Decode | PromptGenerator/MainWindow.xaml.cs:59-108 | a null reply escapes the handler; a reply that does not parse is a parse failure carrying the parser's message; a parsed reply is the "empty or not an array" failure exactly when it is not a non-empty array |
| MainWindow.OnlyFirstItemMatters | PromptGenerator/MainWindow.xaml.cs:70 | items after the first never change the outcome |
| MainWindow.MissingTextExactly | PromptGenerator/MainWindow.xaml.cs:72-97 | the "missing 'text'" failure happens exactly when the first item is an object whose `text` is absent or not a string |
| MainWindow.InnerParseFailure | PromptGenerator/MainWindow.xaml.cs:74-75 | inner text that does not parse is a parse failure carrying the parser's message |
| MainWindow.InnerDecides | PromptGenerator/MainWindow.xaml.cs:74-92 | inner text that parses hands the outcome to the inner document, whatever the other items hold |
| MainWindow.SuccessFalseOrMissingExactly | PromptGenerator/MainWindow.xaml.cs:78-92 | the "success false or missing" failure happens exactly when `success` is absent or anything but the literal true |
| MainWindow.MissingOutputExactly | PromptGenerator/MainWindow.xaml.cs:78-87 | the "missing 'output'" failure happens exactly when `success` is true and `output` is absent or not a string |
| MainWindow.SuccessLookalikes | PromptGenerator/MainWindow.xaml.cs:78-92 | `false`, the string "true", the number 1 and a missing flag all fail, even when `output` is present |
| MainWindow.SuccessWithOutput | PromptGenerator/MainWindow.xaml.cs:78-83 | any inner object whose `success` is true and whose `output` is a string yields that string as the image data |
| MainWindow.ImageDataExactly | PromptGenerator/MainWindow.xaml.cs:64-87 | an image is produced exactly when every layer has the expected shape, and its data is the `output` string itself |
| MainWindow.Message | PromptGenerator/MainWindow.xaml.cs:86-106 | every outcome the handler catches adds exactly one status message; an uncaught exception adds none |
| MainWindow.MessagesDistinguishOutcomes | PromptGenerator/MainWindow.xaml.cs:86-106 | equal messages come from equal outcomes (an image message from some image outcome), and a parse failure's message gives back the parser's message |
| MainWindow.Window.SaveImage | PromptGenerator/MainWindow.xaml.cs:47-52 | valid base64 writes exactly the decoded bytes to the path and reports it; invalid base64 throws before anything changes |
| MainWindow.Window.Report | PromptGenerator/MainWindow.xaml.cs:61-111 | after decoding: a parse failure reports and returns early; an uncaught exception changes nothing more; any other outcome reports, shows the image path and re-enables the button |
| MainWindow.Window.Run | PromptGenerator/MainWindow.xaml.cs:54-112 | the button is enabled again and the image set only when the handler completes without a parse failure; the file is written only on full success, with the decoded `output` |
| MainWindow.SavedFileName | PromptGenerator/MainWindow.xaml.cs:114-128 | the save path is the images folder, then '\\', then `timestamp-name.png` with a clean name |
| SavePaths.ReplaceNonAlnumRuns | PromptGenerator/MainWindow.xaml.cs:123 | each run of non-alphanumeric characters becomes one '_': the result holds only [A-Za-z0-9_], has no "__", and starts with '_' exactly when the input starts outside [A-Za-z0-9] |
| SavePaths.ReplaceKeepsAlnums | PromptGenerator/MainWindow.xaml.cs:123 | the replacement keeps every ASCII letter and digit in order and adds only '_' |
| SavePaths.ReplaceFixesNames | PromptGenerator/MainWindow.xaml.cs:123 | text already made of [A-Za-z0-9_] with no "__" is left unchanged |
| SavePaths.CollapseUnderscores | PromptGenerator/MainWindow.xaml.cs:124 | collapsing leaves no "__", keeps the first character and stays within [A-Za-z0-9_] |
| SavePaths.CollapseKeepsOthers | PromptGenerator/MainWindow.xaml.cs:124 | collapsing removes only underscores |
| SavePaths.CollapseFixesSingles | PromptGenerator/MainWindow.xaml.cs:124 | text without "__" is left unchanged |
| SavePaths.CollapseAfterReplace | PromptGenerator/MainWindow.xaml.cs:123-124 | the second rewrite never changes the first one's output |
| SavePaths.Trim | PromptGenerator/MainWindow.xaml.cs:125 | the trimmed text neither starts nor ends with '_' |
| SavePaths.TrimKeeps | PromptGenerator/MainWindow.xaml.cs:125 | trimming removes only underscores and keeps the charset and the absence of "__" |
| SavePaths.TrimFixesClean | PromptGenerator/MainWindow.xaml.cs:125 | text with no '_' at either end is left unchanged |
| SavePaths.Sanitize | PromptGenerator/MainWindow.xaml.cs:123-125 | the sanitised name holds only [A-Za-z0-9_], has no "__", has no '_' at either end, and loses exactly the input's non-alphanumerics |
| SavePaths.SanitizeFixesClean | PromptGenerator/MainWindow.xaml.cs:123-125 | a clean name sanitises to itself |
| SavePaths.SanitizeIdempotent | PromptGenerator/MainWindow.xaml.cs:123-125 | sanitising twice is sanitising once |
| SavePaths.SanitizeWords | PromptGenerator/MainWindow.xaml.cs:123-125 | three words, each followed by a run of punctuation, sanitise to the words joined by '_' |
| SavePaths.SanitizeExample | PromptGenerator/MainWindow.xaml.cs:123-125 | "a cat! / dog?" becomes "a_cat_dog" |
| SavePaths.Digits | PromptGenerator/MainWindow.xaml.cs:122 | a zero-padded field has exactly the requested width and only decimal digits |
| SavePaths.DigitsRoundTrip | PromptGenerator/MainWindow.xaml.cs:122 | a number that fits the width reads back from its padded digits |
| SavePaths.FormatTimestamp | PromptGenerator/MainWindow.xaml.cs:122 | "yyyyMMddHHmmss" has 14 decimal digits |
| SavePaths.TimestampRoundTrip | PromptGenerator/MainWindow.xaml.cs:122 | the timestamp reads back to the same date and time |
| SavePaths.FileName | PromptGenerator/MainWindow.xaml.cs:126 | the file name splits back into the timestamp, '-', the sanitised prompt and ".png" |
| SavePaths.FileNameSafe | PromptGenerator/MainWindow.xaml.cs:126 | for a digit timestamp, the file name holds no path separator, and its only '.' starts the extension |
| SavePaths.Combine | PromptGenerator/MainWindow.xaml.cs:117 | Path.Combine: an empty second part gives the first; a rooted second part, or an empty first part, gives the second; otherwise the result starts with the first part, ends with the second, and has a separator where they meet; one '\\' is added exactly when neither side has a separator there |
| SavePaths.SavePath | PromptGenerator/MainWindow.xaml.cs:114-128 | the save path ends with the file name |
| SavePaths.SavePathLayout | PromptGenerator/MainWindow.xaml.cs:117-127 | the save path is the images folder (a path ending in `images`), then '\\', then the file name |
| McpClient.ConfigText | PromptGenerator/PGMcpClient.cs:34-40 | the configuration read is the file's text, or `{"mcpServers":{}}` when the file was missing |
| McpClient.GetProperty | PromptGenerator/PGMcpClient.cs:55-56 | GetProperty returns the member exactly when the element is an object holding the name; otherwise it throws |
| McpClient.GetString | PromptGenerator/PGMcpClient.cs:55 | GetString gives the text of a string and null for JSON null, and throws on anything else |
| McpClient.GetStrings | PromptGenerator/PGMcpClient.cs:56-58 | the arguments are read exactly when every item is a string or null, and they come out item by item in order |
| McpClient.Validate | PromptGenerator/PGMcpClient.cs:44-60 | the `mcpServers` failure happens exactly when the root is an object without that member; a root that is not an object throws |
| McpClient.MissingGenimageExactly | PromptGenerator/PGMcpClient.cs:49-53 | the `mcpServers.genimage` failure happens exactly when `mcpServers` is an object without `genimage` |
| McpClient.DefaultConfigLacksGenimage | PromptGenerator/PGMcpClient.cs:34-53 | the default configuration ends in the `genimage` failure and its message |
| McpClient.MissingFileLacksGenimage | PromptGenerator/PGMcpClient.cs:34-53 | a missing configuration file leads to the `genimage` failure |
| McpClient.ConfiguredExactly | PromptGenerator/PGMcpClient.cs:55-60 | success copies `genimage.command` and every `genimage.args` entry, in order |
| McpClient.ConfigRoundTrip | PromptGenerator/PGMcpClient.cs:55-60 | a configuration written for a command and its arguments reads back as exactly that command and those arguments |
| McpClient.PGMcpClient.constructor | PromptGenerator/PGMcpClient.cs:44-60 | the flag is set exactly on success; each failure sets its own message and leaves `command` as "" and `args` empty; success copies both |
| McpClient.PGMcpClient.CreateClient | PromptGenerator/PGMcpClient.cs:63-73 | the server is launched as `genimage` with the configured command and arguments only when the flag is set; the client is set only once the launch has produced one, and stays null while it is pending or after it failed; without the flag nothing changes |
| McpClient.PGMcpClient.Run | PromptGenerator/PGMcpClient.cs:76-87 | a ready client (flag set and client present) makes exactly one call, to `generate_image` with the single argument `prompt`; otherwise the reply is null |
| McpClient.StartAndRun | PromptGenerator/PGMcpClient.cs:21-87 | from start-up to one Generate press, the tool is called, with the prompt, exactly when the configuration names the genimage server and the launch has produced a client by then; a launch still pending or failed gives a null reply |

## Left out

- File and environment access is left out: `File.Exists`, `ReadAllText`, `WriteAllText`, `Directory.CreateDirectory`, `File.WriteAllBytes` and the profile folder. Contents that exist or are written are parameters and results, and the profile folder is a parameter.
- `GetJsonPath` is left out: it depends on the `PG_PROMPT_PATH` variable and the file system. `Initialize` receives the catalog document directly.
- Textual JSON parsing is a parameter. Catalog deserialisation is modelled from the object members as written: each level becomes a dictionary, where a repeated name keeps its first position and takes its last value (`Deserialize`). Deserialisation errors other than a null document are `Unreadable` documents.
- Catalog nulls are left out: a null sub-category map, choice list or list item makes `CreateMainCategory` throw part-way. Only null `name` and `prompt` fields are modelled.
- `Convert.FromBase64String` is an opaque function parameter whose `None` stands for its FormatException.
- The MCP transport is left out: `McpClient.CreateAsync`, `StdioClientTransport`, `CallToolAsync`, serialising the result and `async` scheduling. The connected client is an opaque handle, and the serialised reply is a parameter.
- The launch timing is a parameter rather than a schedule. The window starts `CreateClient` without waiting for it (PromptGenerator/MainWindow.xaml.cs:34), so the client stays null until the server has started and completed its handshake, and stays null for good if the launch throws. `CreateClient` and `StartAndRun` take `connect: Option<Handle>`, the launch's state at the moment the client is next used: `None` stands for "still pending or failed", and then `Run` returns null. The model does not say when a pending launch completes, or distinguish a failure from a launch that is still pending.
- `DateTime.Now` is a parameter.
- WinUI plumbing is left out: fonts, margins, brushes, the status bar, the `BitmapImage`, the title bar, file pickers, dialogs, zoom and about handlers, and the App and MainWindow constructors. The panel, the button state and the image source are plain fields.
- Two uncaught exceptions in `MainWindow.Run` are one `Unhandled` outcome: a null reply, and a property lookup on a non-object. An uncaught FormatException from bad base64 ends the handler the same way.
- A configuration file that does not parse, or whose walk throws, constructs no `PGMcpClient`. The constructor requires that this does not happen.
- MainWindow.MessagesDistinguishOutcomes: does not compare a fixed sentence with a prefixed message (an image path or a parse failure), because the sentences are long literals whose characters the verifier does not expand.
- Resizing the dictionary's entries array is not modelled: it copies entries in order, so enumeration order is unchanged.
