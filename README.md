# Markdown converter: converter state, output naming and format dispatch

This project models the self-contained core of `markdown_converter.py`, a
command-line tool that turns one Markdown file into PDF and/or DOCX. The
rendering itself is done by third-party libraries; what is modelled is the
part the tool owns:

- **Converter state.** `MarkdownConverter` carries three fields that each
  class declares and each instance may override: the output extension, the
  output prefix and the recorded input file name. The model is the class
  `Converters.MarkdownConverter`, with these as mutable `Option<string>`
  fields (`None` is Python's `None`). The two subclasses
  `MarkdownToPdfConverter` and `MarkdownToDocxConverter` differ from the base
  only in their extension (`.pdf`, `.docx`), their `convert` step and the
  attributes their `convert` uses (the PDF title and author, the nested DOCX
  backend class), so the class of an object is a constant tag `variant` (`Base`, `Pdf`, `Docx`).
- **Output naming.** `output_file_name` is a pure computation over the fields:
  the text of the recorded input path before its first `"."`, formatted as
  `"{prefix} - {name}{extension}"` and joined under the working directory and
  the output directory. Module `Naming` defines Python's `str.split(".")`
  (`SplitOnDot`, proved inverse to `".".join` on dot-free pieces), the stem
  (`Stem`, its first piece, proved to be the unique longest dot-free prefix),
  and the file name (`FileName`). The accessors `output_extension`,
  `output_prefix` and `input_file_name` are the functions `OutputExtension`,
  `OutputPrefix` and `InputFileName`; what they promise is stated through the
  lemmas about `FileName`.
- **Reading input.** The file system is a map from path to file text; a path
  exists exactly when it is a key. `ReadInputFile` fails with
  `FileNotFound` and leaves the recorded name alone on a missing path, and
  otherwise records the path and returns the text.
- **Convert (naming side).** The PDF converter reads the input first, so a
  missing file stops it before anything is named; the DOCX converter records
  the path with no existence check and then computes the name. Both return
  the path the document is saved to, or the error raised.
- **Dispatch.** `FORMAT_CONVERTER_MAPPINGS` is the constant table
  returned by `Dispatch.FormatConverterMappings`: `"pdf"` runs PDF, `"docx"` runs DOCX,
  `"all"` runs PDF then DOCX; the lemmas show that the outputs of one selector
  never share a file name.

Quirks of the naming that the model keeps, because the code has them: the
split is on the whole path string, so `"my.dir/report.md"` gives `"my"`,
`"../x.md"` gives `""`, and `"report.md"` and `"report.txt"` give the same
output name; before any input is recorded the name is `prefix + " - " +
extension`; and with the default prefix `""` every name starts with `" - "`.

The name is not a basename: the code keeps everything before the first dot
of the whole path, directories included. The DOCX `convert` records the path
without checking that it exists, so only the PDF `convert` fails on a missing
input before naming.

The working directory (`os.getcwd()`) is a parameter, and the joined output
path is the value `OutputPath(cwd, directory, fileName)`, so the joining rules
of `os.path.join` stay abstract.

Files: `results.dfy` (Option, Result, the exceptions), `naming.dfy`,
`converters.dfy`, `dispatch.dfy`.

## Model

| member | source | states |
|---|---|---|
| `Naming.SplitOnDot` | markdown-converter/markdown_converter.py:43 | `s.split(".")` has at least one piece, no piece holds a dot, and joining the pieces with "." gives back `s` |
| `Naming.JoinInjective` | markdown-converter/markdown_converter.py:43 | two lists of dot-free pieces that join to the same string are equal, so the split is the only such decomposition |
| `Naming.SplitJoinRoundTrip` | markdown-converter/markdown_converter.py:43 | splitting a join of dot-free pieces gives back exactly those pieces |
| `Naming.Stem` | markdown-converter/markdown_converter.py:43 | `split(".")[0]` is a prefix of the path, holds no dot, and is followed by a dot unless it is the whole path |
| `Naming.StemCharacterized` | markdown-converter/markdown_converter.py:43 | any dot-free prefix followed by a dot or the end of the path is the stem: the stem is the text before the first dot |
| `Naming.StemOfDottedName` | markdown-converter/markdown_converter.py:43 | `"a.b.md"` has stem `"a"`: only the text before the first dot is kept |
| `Naming.StemOfParentPath` | markdown-converter/markdown_converter.py:43 | `"../x.md"` has stem `""` |
| `Naming.StemOfDottedDirectory` | markdown-converter/markdown_converter.py:43 | `"my.dir/report.md"` has stem `"my"`: the split is on the whole path string |
| `Naming.StemWithoutDot` | markdown-converter/markdown_converter.py:43 | any path with no dot is its own stem |
| `Naming.OutputExtension` | markdown-converter/markdown_converter.py:22-25 | `output_extension` raises the configuration error exactly when the field is unset and otherwise returns the field; `FileName`'s ensures carry this into the file name |
| `Naming.OutputPrefix` | markdown-converter/markdown_converter.py:28-31 | `output_prefix` is "" when the field is `None` and the field otherwise; `FileName`'s ensures and `DefaultPrefixFileName` carry this into the file name |
| `Naming.InputFileName` | markdown-converter/markdown_converter.py:33-38 | `input_file_name` is "" exactly when no name or the empty name is recorded, and the recorded name otherwise; `FileNameRecoversStem` and `FileNameBeforeRead` carry this into the file name |
| `Naming.BaseName` | markdown-converter/markdown_converter.py:42-45 | the name substituted is the stem of the input name; the guard on "" changes nothing, since the stem of "" is "" |
| `Naming.FileName` | markdown-converter/markdown_converter.py:22-46 | the file name fails with the configuration error exactly when no extension is set; otherwise it starts with the prefix (or "" for `None`) and " - ", and ends with the extension |
| `Naming.FileNameRecoversStem` | markdown-converter/markdown_converter.py:42-46 | between " - " and the extension the file name holds exactly the stem of the recorded input (or "" when none is recorded) |
| `Naming.FileNameBeforeRead` | markdown-converter/markdown_converter.py:33-46 | with no input recorded the file name is `prefix + " - " + extension`, not an error |
| `Naming.DefaultPrefixFileName` | markdown-converter/markdown_converter.py:28-31 | with the prefix "" or `None` the file name starts with " - " |
| `Naming.FileNamesDifferByExtension` | markdown-converter/markdown_converter.py:46 | for one prefix and input, different extensions give different file names |
| `Naming.FileNameDependsOnlyOnStem` | markdown-converter/markdown_converter.py:42-46 | two inputs get the same file name if and only if their stems agree (or no extension is set) |
| `Naming.FileNameCollisionOnExtension` | markdown-converter/markdown_converter.py:43-46 | every input `"report." + rest`, such as `"report.md"` and `"report.txt"`, gives `" - report.pdf"` |
| `Naming.FileNameCollisionOnDirectory` | markdown-converter/markdown_converter.py:43-46 | every input `"my.dir/" + rest`, whatever `rest` is, gives `" - my.pdf"` |
| `Converters.DefaultExtension` | markdown-converter/markdown_converter.py:12-76 | the base class declares no extension; each subclass declares one |
| `Converters.ExtensionsDistinct` | markdown-converter/markdown_converter.py:60-76 | the PDF and DOCX classes declare different extensions |
| `Converters.MarkdownConverter.constructor` | markdown-converter/markdown_converter.py:11-19 | a new converter keeps the output directory, its class's extension, the prefix "" and no recorded input |
| `Converters.MarkdownConverter.OutputFileName` | markdown-converter/markdown_converter.py:40-47 | `output_file_name` fails with the configuration error exactly when no extension is set; otherwise it is the `FileName` under the working and output directories, ending with the extension |
| `Converters.MarkdownConverter.ReadInputFile` | markdown-converter/markdown_converter.py:49-53 | a missing path raises `FileNotFound` and leaves the recorded name unchanged; an existing one is recorded and its text returned |
| `Converters.MarkdownConverter.ConvertPdf` | markdown-converter/markdown_converter.py:64-72 | a missing input fails before naming and records nothing; otherwise the input is recorded and the output path is `output_file_name` |
| `Converters.MarkdownConverter.ConvertDocx` | markdown-converter/markdown_converter.py:99-103 | the input path is recorded with no existence check, and the output path is `output_file_name` computed afterwards |
| `Converters.MarkdownConverter.Convert` | markdown-converter/markdown_converter.py:55-56 | the base class raises `NotImplementedError` and changes nothing; the subclasses behave as `ConvertPdf` and `ConvertDocx` |
| `Converters.FreshConverterFileName` | markdown-converter/markdown_converter.py:12-46 | a new PDF or DOCX converter names its output `" - " + extension` |
| `Converters.RecordedConverterFileName` | markdown-converter/markdown_converter.py:40-47 | after recording a path, a converter with the default prefix names its output `" - " + stem + extension` |
| `Converters.PdfReportScenario` | markdown-converter/markdown_converter.py:64-72 | converting `"report.md"` to PDF under `"out"` saves to `" - report.pdf"` there |
| `Converters.PdfMissingInputScenario` | markdown-converter/markdown_converter.py:49-51 | converting a missing input to PDF fails with `FileNotFound` and records no input |
| `Dispatch.FormatConverterMappings` | markdown-converter/markdown_converter.py:108-112 | the table's selectors are exactly "pdf", "docx" and "all", and each lists at least one concrete class; `ConvertersFor` and `DispatchOrder` state the lookup and the order |
| `Dispatch.ConvertersFor` | markdown-converter/markdown_converter.py:108-112 | exactly "pdf", "docx" and "all" are known, an unknown selector raises `KeyError`, and each known one runs at least one concrete class, none twice |
| `Dispatch.DispatchOrder` | markdown-converter/markdown_converter.py:108-112 | "pdf" runs PDF, "docx" runs DOCX, "all" runs PDF then DOCX |
| `Dispatch.DispatchedNamesDefined` | markdown-converter/markdown_converter.py:108-112 | every class a selector runs has an extension, so naming its output never fails |
| `Dispatch.DispatchedFileNamesDistinct` | markdown-converter/markdown_converter.py:108-112 | the classes one selector runs write different file names for the same input and prefix |
| `Dispatch.AllWritesPdfAndDocx` | markdown-converter/markdown_converter.py:111 | under "all" the two outputs are one ".pdf" and one ".docx" file name, and they differ |

## Left out

- PDF rendering (lines 66-71): building the document with `MarkdownPdf` and `Section` and writing the title and author metadata are calls into a foreign library.
- The DOCX backend (lines 78-98, 101-105): the `CustomMarkdown2docx` constructor, `eat_soup` and `save` depend on the internals of `Markdown2docx`, `docx`, `markdown2` and `BeautifulSoup`. Because the backend's own read of the input is not modelled, `ConvertDocx` returns the output path even for a missing input, where the real backend would then fail.
- Backend failures: rendering and saving errors of either backend are not modelled; a conversion that names its output is taken to succeed.
- Directory creation in the constructor (lines 17-18): a file-system side effect outside the naming logic.
- `os.getcwd()` and `os.path.join` (line 47): the working directory is a parameter and the joined path is kept as its three parts.
- `pathlib.Path` (lines 49-53, 100): a path is modelled by its string form `str(input_file)`; pathlib's normalisation of that string is not modelled.
- ReadInputFile: does not model the failures of `read_text()`. Line 52 records the path before line 53 reads the file, so when an existing path is a directory, or the file is unreadable or fails to decode, the real `read_input_file` raises with the path already recorded; the model treats every existing path as a readable file.
- The command line (lines 115-137): argument parsing, the `print` lines and the loop that builds and runs each converter in turn; only the table's order of dispatch is modelled.
- Non-string overrides of the three fields: the model's fields hold a string or `None`.
