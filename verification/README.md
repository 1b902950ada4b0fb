# Code bundler CLI — a Dafny model of the `bundle` and `create-rsp` cores

The tool (`Cli/Program.cs`) packs the source files under the working
directory into one text file. `bundle` does five things:

- It selects files, skipping anything under `bin`, `obj`, `.git` or
  `node_modules`.
- It keeps only the extensions that the language tags ask for. The tag
  "all" keeps every extension.
- It orders the files by full path, or by extension when the sort option
  is "type".
- It writes an author banner and a start marker. Then, for every file, it
  writes an optional `// File: <relative path>` note, the file's lines
  (blank ones dropped on request) and a blank separator line. Last comes an
  end marker.
- When a file cannot be read, it stops and leaves in the output file
  whatever it had already written.

`create-rsp` asks six questions and fills in defaults for missing answers.
It reads the two yes/no answers with `bool.TryParse`, and writes a
`bundle ...` command line for later replay.

The model is pure. The file system becomes parameters:

- the list of enumerated paths;
- a map from path to what `File.ReadAllLines` returns for it during the run (a missing key is an unreadable file);
- a `relPath` function that stands in for `Path.GetRelativePath`.

The platform's directory separators become a `Platform` value. The modules
follow the program's structure:

| module | file | models |
|---|---|---|
| `Wrappers` | wrappers.dfy | `Option` with failure propagation |
| `Seqs` | seqs.dfy | LINQ `Where` as an order-keeping `Filter`, and the subsequence relation |
| `Text` | text.dfy | the string functions the core uses: `ToLower`, `char.IsWhiteSpace`, `string.IsNullOrWhiteSpace`, `Contains`, ordinal comparison, `Trim` |
| `Paths` | paths.dfy | `Path.GetExtension` |
| `Selection` | selection.dfy | `GetFilesToBundle` |
| `Ordering` | ordering.dfy | `SortFiles`, with `OrderBy` as a stable insertion sort |
| `Bundle` | bundle.dfy | the lines the `bundle` handler writes, and its writing loop |
| `Pipeline` | pipeline.dfy | the `bundle` handler end to end |
| `Response` | response.dfy | the `create-rsp` handler's defaults and command line, and a reader for that line |
| `Scenarios` | scenarios.dfy | concrete examples: the tag table, a sort by type, blank-line removal, two small bundles |

## Model

| member | source | states |
|---|---|---|
| Selection.SelectFiles | Cli/Program.cs:135-171 | The result is a subsequence of the enumerated paths, so order is kept and nothing is duplicated. A path is in it exactly when it contains no excluded `sep + dir + sep` segment, and either some tag is "all" or its lower-cased extension is one the tags ask for. Every copy of a selected path is kept. |
| Selection.TagExtension | Cli/Program.cs:149-161 | A tag is lower-cased before lookup. A known tag gives exactly its entry in the table (csharp→.cs, python→.py, javascript→.js, java→.java, cpp→.cpp, html→.html, txt→.txt, word→.docs). An unknown tag gives "." followed by the lower-cased tag. The result always starts with '.' and is lower case. |
| Selection.AllIgnoresOtherTags | Cli/Program.cs:144-147 | Once "all" (in any letter case) is among the tags, the other tags make no difference. |
| Selection.AllKeepsEverything | Cli/Program.cs:140-147 | With "all" and no excluded path, every enumerated path is selected, in enumeration order. The handler then sorts the selection (line 38). |
| Selection.NoExtensionNeverSelected | Cli/Program.cs:169-170 | Without "all", a path without an extension is never selected. Every requested extension starts with '.', so none equals the "" such a path has. |
| Selection.WantsAllCaseIrrelevant | Cli/Program.cs:144 | When two tag lists differ only in letter case and the first asks for "all", so does the second. |
| Selection.TagCaseIrrelevant | Cli/Program.cs:144-170 | Changing the letter case of the tags does not change the selection. |
| Selection.ExcludedRootSelectsNothing | Cli/Program.cs:140-142 | The exclusion test looks at the whole path. So when the working directory itself has an excluded segment, nothing is selected, whatever the tags. |
| Paths.GetExtension | Cli/Program.cs:169 | `Path.GetExtension`: the result is "" or an extension of the path in the sense of `IsExtensionOf`. `GetExtensionFinds` and `GetExtensionCharacterised` show it is the only one. |
| Paths.GetExtensionCharacterised | Cli/Program.cs:169 | The extension of a path is its suffix that starts at a '.', has at least one more character, and holds no other '.' and no separator. It is "" exactly when no such suffix exists. |
| Ordering.ParseSortMode | Cli/Program.cs:176-179 | The sort is by extension exactly when the option equals "type" ignoring case. Anything else sorts by name. |
| Ordering.SortFiles | Cli/Program.cs:174-181 | The result is a permutation of the input, sorted by the chosen key, and stable: files that share a key keep their input order. |
| Ordering.InsertSorted | Cli/Program.cs:178-179 | Inserting into a sorted sequence keeps it sorted. |
| Ordering.InsertKeyClass | Cli/Program.cs:178-179 | Inserting adds the element in front of the others with its key, and leaves every other key's elements alone. |
| Ordering.SortByStable | Cli/Program.cs:178-179 | For every key, the sorted sequence lists the files with that key in input order. |
| Ordering.SortedStableUnique | Cli/Program.cs:178-179 | Two sorted sequences that list the files of every key in the same order are equal. |
| Ordering.SortFilesCharacterised | Cli/Program.cs:174-181 | A sequence is the result of `SortFiles` if and only if it is sorted by the key and stable with respect to the input. |
| Ordering.SortFilesIdempotent | Cli/Program.cs:174-181 | Sorting an already sorted result changes nothing. |
| Ordering.ByNameUnique | Cli/Program.cs:179 | When sorting by name, a sequence is the result if and only if it is sorted and has the same elements with the same multiplicities. Equal keys are equal paths, so stability adds nothing. |
| Bundle.SectionBody | Cli/Program.cs:52-57 | Without `removeEmptyLines`, a file's lines are written unchanged. In either case the body is never longer than the file. |
| Bundle.SectionBodyDropsBlank | Cli/Program.cs:54-57 | With `removeEmptyLines`, the body is the file's lines with the empty and whitespace-only ones deleted. Order is kept, every other line keeps all its copies, and no blank line is left. |
| Bundle.WriteBundle | Cli/Program.cs:41-67 | The handler's loop, statement by statement: it starts from the banner, appends each file's note, lines and separator, and then the end marker. On an unreadable file it stops after that file's note. The result equals `BundleOutput`. |
| Bundle.WriteNote | Cli/Program.cs:47-50 | The optional `// File: <relative path>` line is appended exactly when `note` is set. |
| Bundle.WriteContent | Cli/Program.cs:52-64 | A file's lines are appended, with blank ones dropped when asked (`SectionBody`), followed by one empty separator line. |
| Bundle.WriteLines | Cli/Program.cs:59-62 | Writing lines one by one appends them in order. |
| Bundle.BundleOutput | Cli/Program.cs:41-67 | The output file's lines. Its contract is carried by `BundleLayout` (complete layout and length), `BundleSectionAt` (where each section sits), `AbortedPrefix` and `AbortedAt` (the aborted form), and `WriteBundle` (the handler's loop produces it). |
| Bundle.BundleLayout | Cli/Program.cs:41-67 | With every file readable, the output is complete. It is 4 + Σ((note ? 1 : 0) + kept lines + 1) lines long. It starts with `// Author: <author>`, the start marker and a blank line, and ends with the end marker. |
| Bundle.BundleSectionAt | Cli/Program.cs:45-65 | With every file readable, file i's section (note, kept lines, blank) sits in the output right after the banner and the sections of the files before it. |
| Bundle.SectionsComplete | Cli/Program.cs:45-65 | With every file readable, the sections are written in full, and their length is the sum of the per-file lengths. |
| Bundle.AbortedPrefix | Cli/Program.cs:45-52 | When some file cannot be read, the output is aborted at the first such file. It holds the banner, the sections of the earlier files and that file's note line, and there is no end marker. |
| Bundle.AbortedAt | Cli/Program.cs:45-52 | The same, for a given first unreadable file i. |
| Pipeline.RunBundle | Cli/Program.cs:37-67 | The handler's output for the enumerated paths: select, sort, then write. Its contract is carried by `RunBundleComplete` and `Bundled`. |
| Pipeline.Bundled | Cli/Program.cs:37-38 | The files that get sections are exactly the selected files, and none of them is excluded. |
| Pipeline.RunBundleComplete | Cli/Program.cs:35-67 | With every selected file readable, the handler's output is complete. It lists the sorted selection, and its length is 4 plus the sum of the section lengths. |
| Response.Resolve | Cli/Program.cs:96-113 | A missing answer becomes "all", "bundled_code.txt", "name" or "Unknown Author". A given answer is used as typed. `note` and `removeEmptyLines` are true exactly when `bool.TryParse` reads true; a missing or unparsable answer gives false. |
| Response.ReplayLine | Cli/Program.cs:115 | The `bundle --language … --author "…"` command line. Its contract is `ReplayRoundTrip`: for space-free languages, output and sort values, the line reads back into the options it was made from. |
| Response.CreateResponse | Cli/Program.cs:96-116 | The response-file text for six answers. Its contract is `CreateResponseRoundTrip`: the text reads back as the resolved options. |
| Response.TryParseBool | Cli/Program.cs:103 | `null` never parses. |
| Response.TryParseBoolAccepts | Cli/Program.cs:103 | "true" or "false" in any letter case parses to that value, even when padded with whitespace or NUL characters. |
| Response.BoolTextRoundTrip | Cli/Program.cs:115 | The "True"/"False" text the command line carries parses back to the same boolean. |
| Response.ReplayRoundTrip | Cli/Program.cs:115 | When the languages, output and sort values hold no space, the command line can be read back into exactly the options it was made from. |
| Response.CreateResponseRoundTrip | Cli/Program.cs:96-115 | The response file for such answers reads back as the resolved options: defaults, parsed booleans and the author. |
| Scenarios.TagTableAnySpelling | Cli/Program.cs:149-160 | Every spelling of each of the eight known tags, in any letter case, asks for that tag's extension, so "CSHARP" gives ".cs" and "Word" gives ".docs". |
| Scenarios.TagTableOddOnes | Cli/Program.cs:157-160 | "HTML" gives ".html", "Word" gives ".docs", and the unknown "Rust" gives ".rust". |
| Scenarios.SortByTypeExample | Cli/Program.cs:178 | Sorting ["a.cs", "b.txt", "c.cs"] by type gives ["a.cs", "c.cs", "b.txt"]. |
| Scenarios.RemoveEmptyLinesExample | Cli/Program.cs:56 | ["a", "", "  ", "b"] with blank lines removed is ["a", "b"]. |
| Scenarios.OneFileBundle | Cli/Program.cs:41-67 | A single readable file with note and blank-line removal gives the banner, `// File: x.cs`, its non-blank line, a blank, and the end marker. |
| Scenarios.UnreadableFileBundle | Cli/Program.cs:45-52 | An unreadable first file leaves only the banner and its note line. |
| Scenarios.CSharpAndTextOnly | Cli/Program.cs:149-170 | With the tags "csharp" and "txt", only files whose lower-cased extension is ".cs" or ".txt" are selected. |

## Left out

- Command-line parsing by System.CommandLine is not modelled. That covers option declarations, required options, the `--sort` default and the handler binding (lines 4-33, 76-89, 124-133). The handler is modelled as receiving the values its lambda names. As written, the binding does not line up with the lambda. The lambda takes `string[] languages` first, but the first option listed is `--output`, a `FileInfo`. `--language` is declared as a single `string`. `--author` and `--remove-empty-lines` are listed in the opposite order to the parameters.
- Directory enumeration (`Directory.GetFiles`, line 140) is a parameter: the list of full paths, in enumeration order.
- `Path.GetRelativePath` and `Directory.GetCurrentDirectory` (line 49) are a `relPath` function parameter.
- `File.ReadAllLines` (line 52) is a map from path to the lines that read returns during the run. Every read failure is a missing key. Line splitting and encodings are not modelled.
- The output file bundling itself is not modelled. Paths are enumerated (line 37) before `new StreamWriter` truncates the output file (line 39). So an output file inside the working directory, such as the default `bundled_code.txt`, can be selected under "all" or "txt". It is then read at line 52 while open for writing. Depending on the platform, that read either fails (an abort in the model) or returns the truncated, partly written file, never its content from before the run. The map stands for whatever the read returns; the model does not tie that file's entry to the lines being written.
- The output `StreamWriter` (line 39) is not modelled, and neither is a failure to create it.
- Console output is not modelled. That covers lines 69-70 and 74, and the prompts and messages of `create-rsp`. It also covers the listing at lines 163-167, which prints every non-excluded file, not only the ones the extension filter keeps. `File.WriteAllTextAsync` and the `async` handler are not modelled either: the response text is the result.
- Exceptions other than an unreadable input file are not modelled. The catch blocks only print.
- Ordering.SortFiles: `OrderBy` with the default culture-sensitive string comparer is modelled as ordinal (character-code) comparison. Culture collation is outside what can be stated here.
- Selection.TagExtension: culture-sensitive `ToLower` is modelled as ASCII lower-casing. This applies at line 149 (the tag), at line 169 (the file's extension, via `Selection.Wanted`) and at line 176 (the sort option, via `Ordering.ParseSortMode`). Non-ASCII letters keep their case in the model. Under some cultures even ASCII letters lower-case differently: in Turkish, 'I' becomes dotless 'ı', so the tag "JAVASCRIPT" would not find its table entry there, and a file extension ".INI" would become ".ını".
- Selection.SelectFiles: the case-insensitive "all" test (`StringComparer.OrdinalIgnoreCase`) is modelled through ASCII lower-casing. This is exact for the word "all".
- Strings are sequences of Dafny `char` (Unicode scalar values), not UTF-16 code units.
- Response.ReplayRoundTrip: requires the languages, output and sort values to hold no space, and the reader is a structural inverse of the written line. It is not System.CommandLine's tokenizer or response-file parser. Values with spaces are not quoted by the handler (only the author is), so they do not survive a replay.
- Response.TryParseBool: the contract states only that `null` never parses. What does parse is stated by TryParseBoolAccepts and BoolTextRoundTrip, for padded "true"/"false" words.
- `create-rsp`'s default file name "default.rsp" (line 91) and its path handling are file-system concerns and are not modelled.
