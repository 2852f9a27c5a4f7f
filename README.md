# pwninit solve-script stub writer, in Dafny

This project models `src/solvepy.rs` of pwninit. That file writes `solve.py`, a pwntools
exploit skeleton for a CTF challenge, into the working directory. The model covers:

- `_make_bindings`: the `name = ELF("path")` lines for the binary, the libc and the linker.
- `_make_proc_args`: the argument text of a `process()` call.
- `make_stub`: choose the template (a custom file decoded as UTF-8, or the built-in
  template.py), bind `exe` and `libc`, then register and render the template.
- `write_stub`: write the stub once. If `solve.py` already exists, nothing changes and the
  call succeeds. Otherwise the stub is written and then made executable.
- The six-variant `Error` enum.

Files:

- `wrappers.dfy`: `Option` and `Result`.
- `strings.dfy` (module `Strings`): `filter_map` over options, `join`, and a `Split` at a
  separator character. `Split` is the partner used to count the lines `join` produces.
- `utf8.dfy` (module `Utf8`): `String::from_utf8` and the UTF-8 bytes that `fs::write`
  writes, following section 3 of RFC 3629. It proves both round trips and that
  `valid_up_to` is exact.
- `solvepy.dfy` (module `SolvePy`): the stub writer itself.

The pure helpers are functions. `make_stub` is a function of the options, the template
machinery and the current files. The filesystem is a class `FileSystem` whose `files` map
holds each file's bytes and executable flag. Its `faults` set names the (operation, path)
pairs that fail with an I/O error. `WriteStub` is a method over that class, and its
postcondition ties the result and the new files to the function `WriteStubEffect`. The
lemmas about `WriteStubEffect` state the write-once rule.

The handlebars engine is foreign code. Registering a template and rendering it are
function-valued fields of `Engine`. The text of the embedded template.py is
`builtinTemplate`, a plain string field of `Engine`.

In the source, `_make_bindings` and `_make_proc_args` are never called by `write_stub`.
The model gives them their own functions and lemmas, and `MakeStub` does not use them, just
as the source does not.

The source has no rollback after a failed `set_exec`. `RetryAfterSetExecError` shows what
follows: `solve.py` stays on disk without its executable bits, and a second call reports
success without setting them.

## Model

| member | source | states |
|---|---|---|
| `SolvePy.BindLine` | src/solvepy.rs:50-54 | a line exists iff the path is present, and it is exactly `name = ELF("path")` |
| `SolvePy.ElfLine` | src/solvepy.rs:53 | one line is as long as the name and path plus the ten characters of ` = ELF("")`, and holds a newline iff the name or the path does |
| `SolvePy.MakeBindings` | src/solvepy.rs:48-67 | the result is the join with `"\n"` of one ELF line per present path, in the order binary, libc, linker; it is empty iff all three are absent |
| `SolvePy.BoundLinesArePresent` | src/solvepy.rs:57-65 | filtering the three optional lines keeps exactly the lines of the present paths, in order |
| `SolvePy.MakeBindingsSplit` | src/solvepy.rs:50-66 | with newline-free names and paths, splitting at newlines gives back exactly the present lines in order; there are one fewer newlines than lines, and the text ends with `)` (no trailing newline) |
| `SolvePy.PreloadArg` | src/solvepy.rs:81 | the text is `, env={"LD_PRELOAD": `, then the libc name, then `.path}`, and nothing else |
| `SolvePy.MakeProcArgs` | src/solvepy.rs:70-87 | the text starts with `[`; it ends with `}` iff a libc is given, and with `]` iff none is |
| `SolvePy.ProcArgsIsList` | src/solvepy.rs:71-86 | the text is a Python list of `ld.path, bin.path` (linker given) or `bin.path`, then `, env={"LD_PRELOAD": libc.path}` iff a libc is given |
| `SolvePy.ProcArgsPresenceOnly` | src/solvepy.rs:71-86 | only the presence of the linker and of the libc matters, not the paths |
| `SolvePy.ProcArgsDeterminesPresence` | src/solvepy.rs:71-86 | for fixed names, equal texts mean equal presence of linker and libc (the converse of the previous row) |
| `SolvePy.StubBindings` | src/solvepy.rs:99-107 | `exe` is the binary path when given and `""` otherwise; `libc` follows the same rule |
| `SolvePy.ReadFile` | src/solvepy.rs:93 | reading succeeds iff the file exists and reading it does not fault, and then yields its bytes |
| `SolvePy.ResolveTemplate` | src/solvepy.rs:91-97 | without a custom path the built-in template is used; the only failures are a read error and a UTF-8 error |
| `SolvePy.MakeStub` | src/solvepy.rs:90-115 | the stub never fails with a write or set-exec error |
| `SolvePy.MakeStubStages` | src/solvepy.rs:90-115 | a read error iff the custom file cannot be read, a UTF-8 error iff its bytes do not decode, a template error iff the resolved template does not register; success iff all stages succeed, and the stub is then the rendering of the template with the bindings |
| `SolvePy.MakeStubTemplateFailureFirst` | src/solvepy.rs:91-97 | a read or UTF-8 failure is returned whatever the engine would do, so nothing is registered or rendered first |
| `SolvePy.CustomTemplateDecodes` | src/solvepy.rs:92-95 | a custom file holding the UTF-8 bytes of a text resolves to exactly that text |
| `SolvePy.Utf8ErrorPrefixValid` | src/solvepy.rs:94 | a UTF-8 error carries the file's bytes and a `valid_up_to` inside them, and the bytes before it decode |
| `SolvePy.MakeStubIgnoresLinkerAndNames` | src/solvepy.rs:99-112 | the linker and the three name fields never affect the stub |
| `SolvePy.WriteFile` | src/solvepy.rs:124 | a write succeeds iff it does not fault; it sets the file's bytes, keeps the executable flag of an existing file (a new file is not executable), and changes no other file |
| `SolvePy.SetExecFile` | src/solvepy.rs:125 | setting the executable bits succeeds iff the file exists and does not fault; it keeps the bytes and changes no other file |
| `SolvePy.WriteStubOutcomes` | src/solvepy.rs:119-128 | a stub failure changes nothing; an existing `solve.py` means success with nothing changed; otherwise a write fault changes nothing, and a successful write leaves the stub's bytes, executable unless setting the bits faulted, which is then the error |
| `SolvePy.WriteStubEffect` | src/solvepy.rs:119-128 | no file other than `solve.py` is created or changed; an existing `solve.py` is left as it is; after success `solve.py` exists |
| `SolvePy.WriteStubSuccess` | src/solvepy.rs:120-127 | after success `solve.py` exists; if it was absent, it is executable and decodes to the stub; if it was present, nothing changed |
| `SolvePy.MakeStubStable` | src/solvepy.rs:93 | writing `solve.py` does not change what `make_stub` produces next time |
| `SolvePy.WriteStubIdempotent` | src/solvepy.rs:119-128 | after a successful call, a second call succeeds and changes nothing |
| `SolvePy.RetryAfterSetExecError` | src/solvepy.rs:122-127 | after a set-exec failure, `solve.py` stays without executable bits, and a second call succeeds and changes nothing |
| `SolvePy.FileSystem.Exists` | src/solvepy.rs:122 | `Path::exists` is membership in the file map |
| `SolvePy.FileSystem.Write` | src/solvepy.rs:124 | the new files and the result are those of `WriteFile` |
| `SolvePy.FileSystem.SetExec` | src/solvepy.rs:125 | the new files and the result are those of `SetExecFile` |
| `SolvePy.WriteStub` | src/solvepy.rs:119-128 | the result and the new files are exactly `WriteStubEffect` of the old files |
| `Strings.FilterSome` | src/solvepy.rs:62-65 | every kept value comes from a present option, and every present value is kept |
| `Strings.Join` | src/solvepy.rs:66 | an empty list joins to `""`, and a non-empty one starts with its first element; `SplitJoin` is its partner |
| `Strings.SplitJoin` | src/solvepy.rs:63-66 | joining newline-free pieces with a newline and splitting gives the pieces back, with one fewer separators than pieces |
| `Utf8.Encode` | src/solvepy.rs:124 | the UTF-8 bytes of a string number between one and four per character; `DecodeEncode` is its partner |
| `Utf8.Decode` | src/solvepy.rs:94 | `valid_up_to` of a failure lies inside the bytes; a decoded string has at most one character per byte |
| `Utf8.DecodeEncode` | src/solvepy.rs:94 | decoding the UTF-8 bytes of any string gives it back |
| `Utf8.EncodeDecode` | src/solvepy.rs:94 | bytes that decode are exactly the encoding of what they decode to |
| `Utf8.ValidUpTo` | src/solvepy.rs:94 | the bytes before `valid_up_to` decode, and the sequence starting there is ill-formed |

## Left out

- Handlebars registration and rendering (src/solvepy.rs:109-114) are foreign code. They are the opaque `register` and `render` fields of `Engine`, which keep only their error outcomes `TmplError` and `RenderError`.
- The text of the embedded template.py is not part of this model. It is the `builtinTemplate` field of `Engine`.
- The coloured status line printed before writing is terminal output and is not modelled.
- Paths are strings. The panic of `to_str().unwrap()` on a non-UTF-8 path is not modelled, nor is the difference between `display()` and `to_str()`.
- Real filesystem I/O is the `files` map and the `faults` set. I/O errors are reduced to `NotFound` and `PermissionDenied`. The permission mask that `set_exec` applies is a single executable flag; `set_exec` is not part of this model beyond that.
- `fs::write` either succeeds or changes nothing. A partial write that fails midway is not modelled.
- `Path::exists` is membership in the map. Its answer of false when the metadata cannot be read is not modelled.
- The race between the existence check and the write when several processes run at once is concurrency and is not modelled.
- `FromUtf8Error` keeps the bytes and `valid_up_to`. Its `error_len` is not modelled.
