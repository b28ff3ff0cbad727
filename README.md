# strip_pdf_metadata, modelled in Dafny

`utils/strip_pdf_metadata.py` is a command-line tool. It removes the
document-information dictionary and the XMP metadata from one or more PDF
files. It works in two phases:

- Phase 1 checks every input: each path must exist and have the suffix
  `.pdf`, in any case. A name that is only `.pdf` has no suffix and fails.
- Phase 2 handles the inputs in order. For each one it resolves an output
  path, strips the file through the `pypdf` library, and prints a
  `Processed:` line.

Any error ends the run with exit code 1. Files processed before the error
stay processed.

This project models the rules around the library:

- `resolve_output_path`: the `--output`, `--in-place` and derived
  `<stem>-stripped.pdf` targets, error precedence, and the file-exists check.
- `strip_metadata`: the encryption checks, and the choice between writing
  directly and writing `<stem>.tmp.pdf` and then replacing the input.
- `main`: the validation loop and the processing loop.

The file system is a map from paths to entries. A `FileSystem` class keeps
that map in a field, and its `Write` and `Replace` methods change it. The two
loops of `main` are methods with loop invariants, each proved equal to a
specification function: `ValidateInputs` against `Validate`, and
`ProcessAll` against `ProcessFrom`. `Run` composes the two and is proved
equal to `RunSpec`. The properties the tool promises are then proved as
lemmas about those functions.

Files:

- `wrappers.dfy`: `Option` and `Result`.
- `paths.dfy`: a path is a `(directory, name)` pair, with `Stem`, `Suffix` and
  the case-insensitive PDF check. `Stem` and `Suffix` follow `pathlib` as
  CPython 3.10 to 3.13 define it. CPython 3.14 changed the rule for names
  ending in a dot; that version is not modelled.
- `pdf_library.dfy`: the abstract document the library reads and writes.
- `file_system.dfy`: file-system entries and the mutable `FileSystem`.
- `strip_pdf_metadata.dfy`: the resolver, the stripper and the driver.
- `driver_properties.dfy`: properties of whole runs.

Some behaviour follows from the code and is proved, although no message
mentions it:

- `InPlaceRunCanRemoveAnInput`: an in-place rewrite does not check whether
  `<stem>.tmp.pdf` already exists. Whatever that file held is overwritten and
  then moved away. So `--in-place a.tmp.pdf a.pdf` exits 0 and reports both
  files as processed, yet `a.tmp.pdf` no longer exists afterwards.
- `ResolveOutputPath`: the derived name is never the input's own name
  (`DefaultOutputPath` ensures this), so in default mode an existing
  `<stem>-stripped.pdf` always needs `--force`.

## Model

| member | source | states |
|---|---|---|
| `Paths.Suffix` | utils/strip_pdf_metadata.py:99 | `Path.suffix`: empty exactly when the name has no last dot past its first character and before its last; otherwise a dot-led tail of the name, shorter than the name, with no other dot |
| `Paths.Stem` | utils/strip_pdf_metadata.py:58 | `Path.stem`: a prefix of the name, equal to the whole name exactly when there is no suffix |
| `Paths.StemSuffixSplit` | utils/strip_pdf_metadata.py:58 | every name is its stem followed by its suffix |
| `Paths.StemOfExtended` | utils/strip_pdf_metadata.py:82 | appending an extension such as `.pdf` to a non-empty stem gives a name whose stem and suffix are exactly those two parts |
| `Paths.IsPdfName` | utils/strip_pdf_metadata.py:99 | the phase-1 suffix test, `suffix.lower() == ".pdf"`; characterised by `PdfNameIff` |
| `Paths.PdfNameIff` | utils/strip_pdf_metadata.py:99 | `suffix.lower() == ".pdf"` holds exactly when the name has at least five characters and ends in a dot followed by p, d, f in any case |
| `PdfLibrary.Decrypt` | utils/strip_pdf_metadata.py:73 | `reader.decrypt(password)`: 0 exactly when the document accepts no such password |
| `PdfLibrary.Stripped` | utils/strip_pdf_metadata.py:76-79 | the clone that is written has no information dictionary, no XMP stream and no encryption, and keeps the pages |
| `PdfLibrary.StrippedIdempotent` | utils/strip_pdf_metadata.py:76-79 | stripping an already stripped document changes nothing |
| `FileSystems.Renamed` | utils/strip_pdf_metadata.py:85 | after `replace`, the destination holds what the source held, the source is gone, and every other path is unchanged |
| `FileSystems.FileSystem.Write` | utils/strip_pdf_metadata.py:83-84 | opening with `"wb"` and writing creates or replaces exactly that one path |
| `FileSystems.FileSystem.Replace` | utils/strip_pdf_metadata.py:85 | the file system afterwards is `Renamed` of the one before |
| `StripPdfMetadata.OutputGiven` | utils/strip_pdf_metadata.py:49 | `if output_arg:`: an absent and an empty `--output` both count as not given |
| `StripPdfMetadata.PasswordGiven` | utils/strip_pdf_metadata.py:71 | `if not password:`: an absent and an empty password both count as missing |
| `StripPdfMetadata.DefaultOutputPath` | utils/strip_pdf_metadata.py:58 | the derived output path is never the input path |
| `StripPdfMetadata.DefaultOutputPathShape` | utils/strip_pdf_metadata.py:58 | the derived output is in the input's directory, its stem is the input's stem plus `-stripped`, and its suffix is `.pdf` |
| `StripPdfMetadata.NotSelfWithSuffix` | utils/strip_pdf_metadata.py:58 | a stem of a name followed by a tail that starts with a non-dot, or that contains a dot, is never that name |
| `StripPdfMetadata.ResolveOutputPath` | utils/strip_pdf_metadata.py:42-65 | a set, non-empty `--output` with several inputs fails with the single-input error before the in-place conflict is checked. With one input and `--in-place` it fails with the either-or error. An explicit output is used as given. In-place resolves to the input itself and never meets the file-exists check. Otherwise the derived path is used. A target that exists and is not the input fails unless `--force`. Every successful result is absent, the input itself, or allowed by `--force` |
| `StripPdfMetadata.TmpPath` | utils/strip_pdf_metadata.py:82 | the temporary file is never the input itself |
| `StripPdfMetadata.TmpPathShape` | utils/strip_pdf_metadata.py:82 | the temporary file is in the input's directory, its stem is the input's stem plus `.tmp`, and its suffix is `.pdf` |
| `StripPdfMetadata.OpenDocument` | utils/strip_pdf_metadata.py:69-74 | each of these holds exactly when its condition does: a missing or unparsable input gives a read error; an encrypted input without a password, or with an empty one, gives the password-required error; an encrypted input whose password decrypts nothing gives the decrypt error. Otherwise the parsed document is returned |
| `StripPdfMetadata.StripEffect` | utils/strip_pdf_metadata.py:68-88 | stripping fails exactly when opening the document fails |
| `StripPdfMetadata.InPlaceEffect` | utils/strip_pdf_metadata.py:81-85 | after an in-place rewrite, the input path holds the stripped document, `<stem>.tmp.pdf` does not exist, and every other path is unchanged |
| `StripPdfMetadata.DirectWriteEffect` | utils/strip_pdf_metadata.py:86-88 | writing to a different output leaves the stripped document there, keeps the input as it was, and changes no other path |
| `StripPdfMetadata.StripMetadata` | utils/strip_pdf_metadata.py:68-88 | on an error nothing on disk has changed; otherwise the file system is what `StripEffect` describes |
| `StripPdfMetadata.Acceptable` | utils/strip_pdf_metadata.py:95-101 | an input passes phase 1 when it exists and `IsPdfName` holds of its name |
| `StripPdfMetadata.Rejection` | utils/strip_pdf_metadata.py:95-101 | the error for a rejected input: file-not-found when it is missing, checked before not-a-PDF |
| `StripPdfMetadata.FirstRejected` | utils/strip_pdf_metadata.py:95-101 | every input before the returned index passes the existence and suffix checks, and the input at that index (if any) fails one of them |
| `StripPdfMetadata.FirstRejectedAt` | utils/strip_pdf_metadata.py:95-101 | the first rejected index is unique: it is the index before which every input passes and at which one fails |
| `StripPdfMetadata.Validate` | utils/strip_pdf_metadata.py:95-101 | phase 1 reports nothing exactly when every input passes; otherwise it reports an error naming the first rejected input, file-not-found exactly when that input is missing and not-a-PDF otherwise |
| `StripPdfMetadata.ValidateInputs` | utils/strip_pdf_metadata.py:95-101 | the validation loop returns the error for the first rejected input, with existence checked before the suffix, or nothing when every input passes; it changes nothing |
| `StripPdfMetadata.ProcessOne` | utils/strip_pdf_metadata.py:104-113 | one step of phase 2: resolve the output path, then strip. The result is an error, or the resolved path and the new file system |
| `StripPdfMetadata.ProcessOneSafe` | utils/strip_pdf_metadata.py:104-113 | a successful step resolved an output that was absent, the input itself, or allowed by `--force`. Its input was a parsable PDF, and its output now holds the stripped document. The temporary `<stem>.tmp.pdf` of an in-place step is not checked (see `InPlaceRunCanRemoveAnInput`) |
| `StripPdfMetadata.ProcessFrom` | utils/strip_pdf_metadata.py:103-118 | phase 2 over the inputs still to do, stopping at the first error; characterised by `ProcessLogShape` and `ProcessStopsAtFirstError` |
| `StripPdfMetadata.RunSpec` | utils/strip_pdf_metadata.py:91-118 | `main`: a phase-1 failure exits 1 with nothing changed. The file system changes only when every input passed phase 1 |
| `StripPdfMetadata.ProcessInput` | utils/strip_pdf_metadata.py:104-113 | one pass of the processing loop: on an error from resolving or stripping nothing is written; otherwise it returns the resolved path, and the file system is the stripping result |
| `StripPdfMetadata.ProcessAll` | utils/strip_pdf_metadata.py:103-118 | the processing loop's exit code, printed lines and final file system are those of `ProcessFrom` over all inputs |
| `StripPdfMetadata.Run` | utils/strip_pdf_metadata.py:91-118 | `main`'s exit code, printed lines and final file system are those of `RunSpec` |
| `DriverProperties.ProcessLogShape` | utils/strip_pdf_metadata.py:103-118 | processing exits 0 or 1. Exit 0 means one `Processed` line per input, in input order. Exit 1 means the `Processed` lines name a prefix of the inputs, in order, followed by exactly one error line |
| `DriverProperties.ProcessStopsAtFirstError` | utils/strip_pdf_metadata.py:103-116 | when processing fails at input k, the final file system is exactly what processing inputs 0..k-1 produced, and input k's step failed from that state; the inputs after k were never processed. An earlier step can still have overwritten or removed a later input as its output or temporary file |
| `DriverProperties.RejectedRunTouchesNothing` | utils/strip_pdf_metadata.py:95-101 | when any input fails phase 1, the run exits 1, prints only the error for the first rejected input, and leaves the file system unchanged |
| `DriverProperties.RunExitCode` | utils/strip_pdf_metadata.py:91-118 | a run exits 0 or 1. Exit 0 happens only when every input passed phase 1 and every input was reported processed, in order. Exit 1 means the last line printed is an error |
| `DriverProperties.OutputWithMultipleInputsWritesNothing` | utils/strip_pdf_metadata.py:104-112 | `--output` with two or more inputs exits 1 with the file system unchanged. After phase 1 passes, the only line is the single-input error, raised while resolving the first file |
| `DriverProperties.OutputWithInPlaceWritesNothing` | utils/strip_pdf_metadata.py:49-53 | `--output` together with `--in-place` exits 1 with the file system unchanged. With one valid input, the only line is the either-or error |
| `DriverProperties.ExistingOutputNeedsForce` | utils/strip_pdf_metadata.py:60-63 | in a run with a single input and without `--force`, an existing target that is not the input makes the run exit 1. Nothing is changed, the target included. For a valid input the only line is the file-exists error naming the target |
| `DriverProperties.UnopenableInputWritesNothing` | utils/strip_pdf_metadata.py:69-74 | a single input that cannot be parsed, or is encrypted with a missing, empty or wrong password, makes the run exit 1 with one error line and nothing written. When the input passes phase 1 and its output path resolves, that line is the read, password-required or decrypt error from opening it |
| `DriverProperties.DefaultRunWritesStrippedSibling` | utils/strip_pdf_metadata.py:55-58 | `tool a.pdf` with a readable input and a free (or forced) target exits 0. It prints `Processed: a.pdf -> a-stripped.pdf`, and the only change is that target now holding the stripped document |
| `DriverProperties.InPlaceRunRewritesInput` | utils/strip_pdf_metadata.py:81-85 | `tool --in-place a.pdf` with a readable input exits 0. Afterwards `a.pdf` holds the stripped document, `a.tmp.pdf` does not exist, and no other path changed |
| `DriverProperties.InPlaceRunCanRemoveAnInput` | utils/strip_pdf_metadata.py:81-85 | `tool --in-place a.tmp.pdf a.pdf` exits 0 and reports both inputs, yet `a.tmp.pdf` no longer exists |

## Left out

- Argument parsing (`parse_args`, lines 11-39) is a library. Its result is the `Config` record. Usage errors and their exit code 2 are not modelled.
- `Path.expanduser().resolve()` depends on the home directory, the working directory and symbolic links. Inputs are taken to be canonical already. For `--output`, the raw text is kept (it decides whether the option counts as given), together with the path it resolves to, taken as given.
- PDF parsing, decryption, cloning and serialisation are done by `pypdf`. A document is reduced to an encryption flag, the set of passwords `decrypt` accepts, two metadata flags and an opaque page list. `Decrypt` returns 0 or 1; the library's distinction between user and owner passwords is not modelled.
- An exception from `decrypt` or `clone_document_from_reader` on a file the library could parse has no separate form. Such a file is modelled as `Unreadable`, which gives `ReadFailed`. In the source, that exception also fires before anything is written, so the effect on disk and on the exit code is the same; only the error message differs.
- I/O failures while writing or replacing (permissions, a missing directory, a full disk, a target that is a directory) are not modelled: `Write` and `Replace` always succeed. The claim that no partial output is left after a failed write is therefore not modelled either.
- The atomicity of `replace` and crashes in the middle of a write are not modelled.
- Message texts and the choice of stdout or stderr are not modelled. The output is an event log of `Processed(input, output)` and `Failed(error)` entries, and the `Error` constructor names the message.
- `Paths.Lower` lower-cases ASCII letters only. No other character lower-cases to `.`, `p`, `d` or `f`, so the `.pdf` comparison comes out the same as with Python's full `str.lower()`.
- Path equality is equality of the `(directory, name)` pair. For canonical POSIX paths this agrees with `PurePath` equality.
