/**
  The solve-script stub writer of pwninit (src/solvepy.rs): the pwntools snippets built
  from the configured paths, the template resolution and binding of `make_stub`, and the
  write-once rule of `write_stub` over a filesystem held as a map from path to file.

  The handlebars engine is not modelled: its two fallible steps, registering a template
  and rendering it, are function-valued fields of `Engine`; the text of the built-in
  template.py that the program embeds at build time is a plain string field of it.
*/
module SolvePy {
  import opened Wrappers
  import opened Strings
  import Utf8

  type Path = string

  /** The fields of the command-line options that the stub writer reads. */
  datatype Opts = Opts(
    bin: Option<Path>,
    libc: Option<Path>,
    ld: Option<Path>,
    templatePath: Option<Path>,
    templateBinName: string,
    templateLibcName: string,
    templateLdName: string)

  datatype IoError = NotFound | PermissionDenied

  /** `FromUtf8Error`: the rejected bytes and the length of their longest valid prefix. */
  datatype FromUtf8Error = FromUtf8Error(bytes: seq<Utf8.byte>, validUpTo: nat)

  /** Opaque failures of the handlebars engine. */
  datatype HbTemplateError = HbTemplateError(reason: string)
  datatype HbRenderError = HbRenderError(reason: string)

  /** The error enum of the stub writer, one variant per failing stage. */
  datatype Error =
    | Utf8Error(utf8: FromUtf8Error)
    | WriteError(io: IoError)
    | ReadError(io: IoError)
    | TmplError(tmpl: HbTemplateError)
    | RenderError(render: HbRenderError)
    | SetExecError(io: IoError)

  /** The two values the template sees, `{{exe}}` and `{{libc}}`. */
  datatype Bindings = Bindings(exe: string, libc: string)

  /**
    What the template machinery contributes: the embedded template.py, the outcome of
    registering a template source (None when it parses), and the outcome of rendering a
    registered source against a binding record.
  */
  datatype Engine = Engine(
    builtinTemplate: string,
    register: string -> Option<HbTemplateError>,
    render: (string, Bindings) -> Result<string, HbRenderError>)

  // ---------------------------------------------------------------------------
  // _make_bindings

  /** `name = ELF("path")`: the name, then the path inside `ELF("...")`, and no other characters. */
  function ElfLine(name: string, path: Path): (r: string)
    ensures |r| == |name| + |path| + 10
    ensures '\n' in r <==> '\n' in name || '\n' in path
  {
    name + " = ELF(\"" + path + "\")"
  }

  /** The closure `bind_line`: a line when the path is present. */
  function BindLine(name: string, path: Option<Path>): (r: Option<string>)
    ensures r.Some? <==> path.Some?
    ensures path.Some? ==> r.value == ElfLine(name, path.value)
  {
    match path
    case None => None
    case Some(p) => Some(ElfLine(name, p))
  }

  /**
    `_make_bindings`: ELF bindings for binary, libc and linker, joined by newlines; it is
    the join of one ELF line per present target in the order binary, libc, linker, and it
    is empty exactly when no path is present.
  */
  function MakeBindings(opts: Opts): (r: string)
    ensures r == Join(ElfLines(PresentTargets(opts)), "\n")
    ensures r == "" <==> opts.bin.None? && opts.libc.None? && opts.ld.None?
  {
    BoundLinesArePresent(opts);
    Join(FilterSome([
      BindLine(opts.templateBinName, opts.bin),
      BindLine(opts.templateLibcName, opts.libc),
      BindLine(opts.templateLdName, opts.ld)]), "\n")
  }

  /** Reference: the (name, path) pairs that are present, in the order binary, libc, linker. */
  function PresentTargets(opts: Opts): (r: seq<(string, Path)>)
    ensures |r| <= 3
  {
    (if opts.bin.Some? then [(opts.templateBinName, opts.bin.value)] else [])
    + (if opts.libc.Some? then [(opts.templateLibcName, opts.libc.value)] else [])
    + (if opts.ld.Some? then [(opts.templateLdName, opts.ld.value)] else [])
  }

  function ElfLines(targets: seq<(string, Path)>): (r: seq<string>)
    ensures |r| == |targets|
    ensures forall i :: 0 <= i < |r| ==> r[i] == ElfLine(targets[i].0, targets[i].1)
  {
    if targets == [] then [] else [ElfLine(targets[0].0, targets[0].1)] + ElfLines(targets[1..])
  }

  /** The `filter_map` of the three `bind_line` results is one ELF line per present target, in order. */
  lemma BoundLinesArePresent(opts: Opts)
    ensures FilterSome([
      BindLine(opts.templateBinName, opts.bin),
      BindLine(opts.templateLibcName, opts.libc),
      BindLine(opts.templateLdName, opts.ld)]) == ElfLines(PresentTargets(opts))
  {
    var b := BindLine(opts.templateBinName, opts.bin);
    var l := BindLine(opts.templateLibcName, opts.libc);
    var d := BindLine(opts.templateLdName, opts.ld);
    var tb := if opts.bin.Some? then [(opts.templateBinName, opts.bin.value)] else [];
    var tl := if opts.libc.Some? then [(opts.templateLibcName, opts.libc.value)] else [];
    var td := if opts.ld.Some? then [(opts.templateLdName, opts.ld.value)] else [];
    FilterThree(b, l, d);
    ElfLinesAppend(tb + tl, td);
    ElfLinesAppend(tb, tl);
    assert ElfLines(tb) == Present(b) && ElfLines(tl) == Present(l) && ElfLines(td) == Present(d);
  }

  lemma {:induction false} ElfLinesAppend(a: seq<(string, Path)>, b: seq<(string, Path)>)
    ensures ElfLines(a + b) == ElfLines(a) + ElfLines(b)
  {
    if a == [] {
      assert a + b == b;
    } else {
      assert (a + b)[1..] == a[1..] + b;
      ElfLinesAppend(a[1..], b);
    }
  }

  lemma {:induction false} JoinNonEmpty(xs: seq<string>, sep: string)
    requires xs != [] && xs[|xs| - 1] != []
    ensures Join(xs, sep) != [] && Join(xs, sep)[|Join(xs, sep)| - 1] == xs[|xs| - 1][|xs[|xs| - 1]| - 1]
  {
    if |xs| > 1 {
      JoinNonEmpty(xs[1..], sep);
    }
  }

  /** A name or path that cannot break a line. */
  predicate OneLine(s: string) {
    '\n' !in s
  }

  /**
    When names and paths hold no newline, splitting the result at newlines gives back
    exactly one line per present target, in the order binary, libc, linker; there is no
    trailing newline, so there are one fewer newlines than lines.
  */
  lemma MakeBindingsSplit(opts: Opts)
    requires opts.bin.Some? || opts.libc.Some? || opts.ld.Some?
    requires OneLine(opts.templateBinName) && OneLine(opts.templateLibcName) && OneLine(opts.templateLdName)
    requires opts.bin.Some? ==> OneLine(opts.bin.value)
    requires opts.libc.Some? ==> OneLine(opts.libc.value)
    requires opts.ld.Some? ==> OneLine(opts.ld.value)
    ensures Split(MakeBindings(opts), '\n') == ElfLines(PresentTargets(opts))
    ensures Count(MakeBindings(opts), '\n') == |PresentTargets(opts)| - 1
    ensures MakeBindings(opts)[|MakeBindings(opts)| - 1] == ')'
  {
    var lines := ElfLines(PresentTargets(opts));
    LinesHoldNoNewline(opts);
    assert "\n" == ['\n'];
    SplitJoin(lines, '\n');
    JoinNonEmpty(lines, "\n");
  }

  lemma LinesHoldNoNewline(opts: Opts)
    requires OneLine(opts.templateBinName) && OneLine(opts.templateLibcName) && OneLine(opts.templateLdName)
    requires opts.bin.Some? ==> OneLine(opts.bin.value)
    requires opts.libc.Some? ==> OneLine(opts.libc.value)
    requires opts.ld.Some? ==> OneLine(opts.ld.value)
    ensures forall i :: 0 <= i < |PresentTargets(opts)| ==> '\n' !in ElfLines(PresentTargets(opts))[i]
  {
    var lines := ElfLines(PresentTargets(opts));
    forall i | 0 <= i < |lines|
      ensures '\n' !in lines[i]
    {
      var (n, p) := PresentTargets(opts)[i];
      assert lines[i] == n + " = ELF(\"" + p + "\")";
    }
  }

  // ---------------------------------------------------------------------------
  // _make_proc_args

  /** The keyword argument that preloads the libc: the libc name's `.path` as the `LD_PRELOAD` value. */
  function PreloadArg(libcName: string): (r: string)
    ensures |r| == |libcName| + 27
    ensures ", env={\"LD_PRELOAD\": " <= r && r[21..|r| - 6] == libcName && r[|r| - 6..] == ".path}"
  {
    ", env={\"LD_PRELOAD\": " + libcName + ".path}"
  }

  /** `_make_proc_args`: the argument text of a pwntools `process()` call. */
  function MakeProcArgs(opts: Opts): (r: string)
    ensures |r| >= 2 && r[0] == '['
    ensures opts.libc.Some? <==> r[|r| - 1] == '}'
    ensures opts.libc.None? <==> r[|r| - 1] == ']'
  {
    var args := if opts.ld.Some? then opts.templateLdName + ".path, " + opts.templateBinName + ".path"
                else opts.templateBinName + ".path";
    var env := if opts.libc.Some? then PreloadArg(opts.templateLibcName) else "";
    "[" + args + "]" + env
  }

  /** Reference: the `.path` attributes passed as argv, the linker first when there is one. */
  function ProcTargets(opts: Opts): (r: seq<string>)
  {
    if opts.ld.Some? then [opts.templateLdName + ".path", opts.templateBinName + ".path"]
    else [opts.templateBinName + ".path"]
  }

  /** A Python list display. */
  function PyList(items: seq<string>): string
  {
    "[" + Join(items, ", ") + "]"
  }

  /** The argument text is a Python list of the targets' paths, then the preload argument iff a libc is given. */
  lemma ProcArgsIsList(opts: Opts)
    ensures MakeProcArgs(opts) == PyList(ProcTargets(opts)) + (if opts.libc.Some? then PreloadArg(opts.templateLibcName) else "")
  {
    var bin := opts.templateBinName + ".path";
    var args := if opts.ld.Some? then opts.templateLdName + ".path, " + opts.templateBinName + ".path" else bin;
    var env := if opts.libc.Some? then PreloadArg(opts.templateLibcName) else "";
    assert MakeProcArgs(opts) == "[" + args + "]" + env;
    if opts.ld.Some? {
      var ld := opts.templateLdName + ".path";
      JoinPair(ld, bin, ", ");
      assert args == ld + ", " + bin;
    }
    assert Join(ProcTargets(opts), ", ") == args;
  }

  lemma JoinPair(a: string, b: string, sep: string)
    ensures Join([a, b], sep) == a + sep + b
  {
    assert [a, b][1..] == [b];
  }

  /** Only whether a linker and a libc are present matters, never the paths themselves. */
  lemma ProcArgsPresenceOnly(a: Opts, b: Opts)
    requires a.templateBinName == b.templateBinName && a.templateLibcName == b.templateLibcName
    requires a.templateLdName == b.templateLdName
    requires a.ld.Some? == b.ld.Some? && a.libc.Some? == b.libc.Some?
    ensures MakeProcArgs(a) == MakeProcArgs(b)
  {
  }

  /** Conversely, the argument text determines whether a linker and a libc are present. */
  lemma ProcArgsDeterminesPresence(a: Opts, b: Opts)
    requires a.templateBinName == b.templateBinName && a.templateLibcName == b.templateLibcName
    requires a.templateLdName == b.templateLdName
    requires MakeProcArgs(a) == MakeProcArgs(b)
    ensures a.ld.Some? == b.ld.Some? && a.libc.Some? == b.libc.Some?
  {
    var r := MakeProcArgs(a);
    assert a.libc.Some? == b.libc.Some?;
    var env := if a.libc.Some? then |PreloadArg(a.templateLibcName)| else 0;
    var inner := |r| - 2 - env;
    assert a.ld.Some? ==> inner == |a.templateLdName| + |a.templateBinName| + 12;
    assert a.ld.None? ==> inner == |a.templateBinName| + 5;
  }

  // ---------------------------------------------------------------------------
  // make_stub

  /** The template variables: each path's text when present, otherwise the empty string. */
  function StubBindings(opts: Opts): (r: Bindings)
    ensures opts.bin.Some? ==> r.exe == opts.bin.value
    ensures opts.bin.None? ==> r.exe == ""
    ensures opts.libc.Some? ==> r.libc == opts.libc.value
    ensures opts.libc.None? ==> r.libc == ""
  {
    var exe := match opts.bin
      case Some(b) => b
      case None => "";
    var libc := match opts.libc
      case Some(l) => l
      case None => "";
    Bindings(exe, libc)
  }

  /** A file: its bytes and whether its executable bits are set. */
  datatype File = File(content: seq<Utf8.byte>, exec: bool)

  /** The filesystem operations that can fail on a given path for reasons other than absence. */
  datatype IoOp = ReadOp | WriteOp | ChmodOp

  /** `fs::read`. */
  function ReadFile(files: map<Path, File>, faults: set<(IoOp, Path)>, p: Path): (r: Result<seq<Utf8.byte>, IoError>)
    ensures r.Ok? <==> p in files && (ReadOp, p) !in faults
    ensures r.Ok? ==> r.value == files[p].content
  {
    if p !in files then Err(NotFound)
    else if (ReadOp, p) in faults then Err(PermissionDenied)
    else Ok(files[p].content)
  }

  /** The template source: the custom file decoded as UTF-8, or the built-in template. */
  function ResolveTemplate(opts: Opts, engine: Engine, files: map<Path, File>, faults: set<(IoOp, Path)>): (r: Result<string, Error>)
    ensures r.Err? ==> r.error.ReadError? || r.error.Utf8Error?
    ensures opts.templatePath.None? ==> r == Ok(engine.builtinTemplate)
  {
    match opts.templatePath
    case None => Ok(engine.builtinTemplate)
    case Some(p) =>
      match ReadFile(files, faults, p)
      case Err(e) => Err(ReadError(e))
      case Ok(data) =>
        match Utf8.Decode(data)
        case Err(k) => Err(Utf8Error(FromUtf8Error(data, k)))
        case Ok(t) => Ok(t)
  }

  /** `make_stub`: resolve the template, bind `exe` and `libc`, register and render. */
  function MakeStub(opts: Opts, engine: Engine, files: map<Path, File>, faults: set<(IoOp, Path)>): (r: Result<string, Error>)
    ensures r.Err? ==> !r.error.WriteError? && !r.error.SetExecError?
  {
    match ResolveTemplate(opts, engine, files, faults)
    case Err(e) => Err(e)
    case Ok(templ) =>
      var mapping := StubBindings(opts);
      match engine.register(templ)
      case Some(te) => Err(TmplError(te))
      case None =>
        match engine.render(templ, mapping)
        case Err(re) => Err(RenderError(re))
        case Ok(s) => Ok(s)
  }

  /**
    The stages fail in order: a read error when the custom file cannot be read, a UTF-8
    error when its bytes do not decode, then the engine's template error, then its render
    error; on success the stub is the rendering of the resolved template with the bindings.
  */
  lemma MakeStubStages(opts: Opts, engine: Engine, files: map<Path, File>, faults: set<(IoOp, Path)>)
    ensures var r := MakeStub(opts, engine, files, faults);
      && (opts.templatePath.Some? && ReadFile(files, faults, opts.templatePath.value).Err? <==>
            r.Err? && r.error.ReadError?)
      && (r.Err? && r.error.ReadError? ==> r.error.io == ReadFile(files, faults, opts.templatePath.value).error)
      && (r.Err? && r.error.Utf8Error? <==>
            opts.templatePath.Some? && ReadFile(files, faults, opts.templatePath.value).Ok?
            && Utf8.Decode(ReadFile(files, faults, opts.templatePath.value).value).Err?)
      && (r.Err? && r.error.TmplError? <==>
            ResolveTemplate(opts, engine, files, faults).Ok?
            && engine.register(ResolveTemplate(opts, engine, files, faults).value).Some?)
      && (r.Ok? <==>
            ResolveTemplate(opts, engine, files, faults).Ok?
            && engine.register(ResolveTemplate(opts, engine, files, faults).value).None?
            && engine.render(ResolveTemplate(opts, engine, files, faults).value, StubBindings(opts)).Ok?)
      && (r.Ok? ==> r.value == engine.render(ResolveTemplate(opts, engine, files, faults).value, StubBindings(opts)).value)
  {
  }

  /** A failure to obtain the template is reported whatever the engine would have done. */
  lemma MakeStubTemplateFailureFirst(opts: Opts, e1: Engine, e2: Engine, files: map<Path, File>, faults: set<(IoOp, Path)>)
    requires opts.templatePath.Some?
    requires ResolveTemplate(opts, e1, files, faults).Err?
    ensures MakeStub(opts, e1, files, faults) == MakeStub(opts, e2, files, faults)
  {
  }

  /** A custom template file holding the UTF-8 bytes of `t` is registered and rendered as `t`. */
  lemma CustomTemplateDecodes(opts: Opts, engine: Engine, files: map<Path, File>, faults: set<(IoOp, Path)>, t: string)
    requires opts.templatePath.Some? && opts.templatePath.value in files
    requires (ReadOp, opts.templatePath.value) !in faults
    requires files[opts.templatePath.value].content == Utf8.Encode(t)
    ensures ResolveTemplate(opts, engine, files, faults) == Ok(t)
  {
    Utf8.DecodeEncode(t);
  }

  /** A UTF-8 error carries the file's bytes, and the bytes before `valid_up_to` decode. */
  lemma Utf8ErrorPrefixValid(opts: Opts, engine: Engine, files: map<Path, File>, faults: set<(IoOp, Path)>)
    requires MakeStub(opts, engine, files, faults).Err?
    requires MakeStub(opts, engine, files, faults).error.Utf8Error?
    ensures var e := MakeStub(opts, engine, files, faults).error.utf8;
      && opts.templatePath.Some? && e.bytes == files[opts.templatePath.value].content
      && e.validUpTo < |e.bytes| && Utf8.Decode(e.bytes[..e.validUpTo]).Ok?
  {
    var e := MakeStub(opts, engine, files, faults).error.utf8;
    Utf8.ValidUpTo(e.bytes);
  }

  /** Only the binary, the libc and the template path feed the stub; the linker and the names do not. */
  lemma MakeStubIgnoresLinkerAndNames(a: Opts, b: Opts, engine: Engine, files: map<Path, File>, faults: set<(IoOp, Path)>)
    requires a.bin == b.bin && a.libc == b.libc && a.templatePath == b.templatePath
    ensures MakeStub(a, engine, files, faults) == MakeStub(b, engine, files, faults)
  {
    assert StubBindings(a) == StubBindings(b);
  }

  // ---------------------------------------------------------------------------
  // write_stub

  /** The stub's fixed name, relative to the working directory. */
  const SolvePath: Path := "solve.py"

  /** `fs::write`: replaces the content; a new file starts without executable bits. */
  function WriteFile(files: map<Path, File>, faults: set<(IoOp, Path)>, p: Path, data: seq<Utf8.byte>): (r: Result<map<Path, File>, IoError>)
    ensures r.Ok? <==> (WriteOp, p) !in faults
    ensures r.Ok? ==> r.value.Keys == files.Keys + {p} && r.value[p].content == data
    ensures r.Ok? ==> r.value[p].exec == (p in files && files[p].exec)
    ensures r.Ok? ==> forall q :: q in files && q != p ==> r.value[q] == files[q]
  {
    if (WriteOp, p) in faults then Err(PermissionDenied)
    else Ok(files[p := File(data, p in files && files[p].exec)])
  }

  /** `set_exec`: sets the executable bits of an existing file. */
  function SetExecFile(files: map<Path, File>, faults: set<(IoOp, Path)>, p: Path): (r: Result<map<Path, File>, IoError>)
    ensures r.Ok? <==> p in files && (ChmodOp, p) !in faults
    ensures r.Ok? ==> r.value.Keys == files.Keys && r.value[p] == File(files[p].content, true)
    ensures r.Ok? ==> forall q :: q in files && q != p ==> r.value[q] == files[q]
  {
    if p !in files then Err(NotFound)
    else if (ChmodOp, p) in faults then Err(PermissionDenied)
    else Ok(files[p := files[p].(exec := true)])
  }

  /**
    The outcome and the resulting files of `write_stub`, step by step with early returns.
    No file but solve.py is ever created or changed, an existing solve.py is left alone,
    and a success always leaves a solve.py behind.
  */
  function WriteStubEffect(opts: Opts, engine: Engine, files: map<Path, File>, faults: set<(IoOp, Path)>): (r: (Result<(), Error>, map<Path, File>))
    ensures r.1.Keys <= files.Keys + {SolvePath}
    ensures forall q :: q in files && q != SolvePath ==> q in r.1 && r.1[q] == files[q]
    ensures SolvePath in files ==> r.1 == files
    ensures r.0.Ok? ==> SolvePath in r.1
  {
    match MakeStub(opts, engine, files, faults)
    case Err(e) => (Err(e), files)
    case Ok(stub) =>
      if SolvePath in files then (Ok(()), files)
      else
        match WriteFile(files, faults, SolvePath, Utf8.Encode(stub))
        case Err(e) => (Err(WriteError(e)), files)
        case Ok(written) =>
          match SetExecFile(written, faults, SolvePath)
          case Err(e) => (Err(SetExecError(e)), written)
          case Ok(done) => (Ok(()), done)
  }

  /** Every outcome of `write_stub`, as the three cases of the source promise it. */
  lemma WriteStubOutcomes(opts: Opts, engine: Engine, files: map<Path, File>, faults: set<(IoOp, Path)>)
    ensures var (r, after) := WriteStubEffect(opts, engine, files, faults);
      var stub := MakeStub(opts, engine, files, faults);
      && (stub.Err? ==> r == Err(stub.error) && after == files)
      && (stub.Ok? && SolvePath in files ==> r == Ok(()) && after == files)
      && (stub.Ok? && SolvePath !in files && (WriteOp, SolvePath) in faults ==>
            r == Err(WriteError(PermissionDenied)) && after == files)
      && (stub.Ok? && SolvePath !in files && (WriteOp, SolvePath) !in faults ==>
            && after == files[SolvePath := File(Utf8.Encode(stub.value), (ChmodOp, SolvePath) !in faults)]
            && r == (if (ChmodOp, SolvePath) in faults then Err(SetExecError(PermissionDenied)) else Ok(())))
  {
  }

  /** A successful call leaves a solve.py; a fresh one holds the stub's UTF-8 text and is executable. */
  lemma WriteStubSuccess(opts: Opts, engine: Engine, files: map<Path, File>, faults: set<(IoOp, Path)>)
    requires WriteStubEffect(opts, engine, files, faults).0.Ok?
    ensures var after := WriteStubEffect(opts, engine, files, faults).1;
      && MakeStub(opts, engine, files, faults).Ok?
      && SolvePath in after && (SolvePath in files ==> after == files)
      && (SolvePath !in files ==>
            after[SolvePath].exec && Utf8.Decode(after[SolvePath].content) == Ok(MakeStub(opts, engine, files, faults).value))
  {
    var stub := MakeStub(opts, engine, files, faults);
    if SolvePath !in files {
      Utf8.DecodeEncode(stub.value);
    }
  }

  /** Writing solve.py does not change what `make_stub` produces. */
  lemma MakeStubStable(opts: Opts, engine: Engine, files: map<Path, File>, faults: set<(IoOp, Path)>)
    requires MakeStub(opts, engine, files, faults).Ok?
    ensures MakeStub(opts, engine, WriteStubEffect(opts, engine, files, faults).1, faults)
         == MakeStub(opts, engine, files, faults)
  {
    var after := WriteStubEffect(opts, engine, files, faults).1;
    if SolvePath !in files && opts.templatePath.Some? {
      var p := opts.templatePath.value;
      assert p != SolvePath;
      assert ReadFile(after, faults, p) == ReadFile(files, faults, p);
    }
  }

  /** Idempotence: after a successful call, a second call succeeds and changes nothing. */
  lemma WriteStubIdempotent(opts: Opts, engine: Engine, files: map<Path, File>, faults: set<(IoOp, Path)>)
    requires WriteStubEffect(opts, engine, files, faults).0.Ok?
    ensures var after := WriteStubEffect(opts, engine, files, faults).1;
      WriteStubEffect(opts, engine, after, faults) == (Ok(()), after)
  {
    WriteStubSuccess(opts, engine, files, faults);
    MakeStubStable(opts, engine, files, faults);
  }

  /**
    No rollback: after a failure to set the executable bits, solve.py stays on disk without
    them, and a second call then reports success without setting them.
  */
  lemma RetryAfterSetExecError(opts: Opts, engine: Engine, files: map<Path, File>, faults: set<(IoOp, Path)>)
    requires var r := WriteStubEffect(opts, engine, files, faults).0; r.Err? && r.error.SetExecError?
    ensures var after := WriteStubEffect(opts, engine, files, faults).1;
      && SolvePath in after && !after[SolvePath].exec
      && WriteStubEffect(opts, engine, after, faults) == (Ok(()), after)
  {
    MakeStubStable(opts, engine, files, faults);
  }

  /** The working directory's files and the operations that fail in it. */
  class FileSystem {
    var files: map<Path, File>
    const faults: set<(IoOp, Path)>

    constructor (files: map<Path, File>, faults: set<(IoOp, Path)>)
      ensures this.files == files && this.faults == faults
    {
      this.files := files;
      this.faults := faults;
    }

    /** `Path::exists` */
    method Exists(p: Path) returns (b: bool)
      ensures b <==> p in files
    {
      b := p in files;
    }

    /** `fs::write` */
    method Write(p: Path, data: seq<Utf8.byte>) returns (r: Result<(), IoError>)
      modifies this
      ensures match WriteFile(old(files), faults, p, data)
        case Ok(m) => r == Ok(()) && files == m
        case Err(e) => r == Err(e) && files == old(files)
    {
      match WriteFile(files, faults, p, data)
      case Ok(m) =>
        files := m;
        r := Ok(());
      case Err(e) =>
        r := Err(e);
    }

    /** `set_exec` */
    method SetExec(p: Path) returns (r: Result<(), IoError>)
      modifies this
      ensures match SetExecFile(old(files), faults, p)
        case Ok(m) => r == Ok(()) && files == m
        case Err(e) => r == Err(e) && files == old(files)
    {
      match SetExecFile(files, faults, p)
      case Ok(m) =>
        files := m;
        r := Ok(());
      case Err(e) =>
        r := Err(e);
    }
  }

  /**
    `write_stub`: make the stub, then, unless solve.py exists, write it and set its
    executable bits, stopping at the first failure.
  */
  method WriteStub(opts: Opts, engine: Engine, fs: FileSystem) returns (r: Result<(), Error>)
    modifies fs
    ensures (r, fs.files) == WriteStubEffect(opts, engine, old(fs.files), fs.faults)
  {
    var stub := MakeStub(opts, engine, fs.files, fs.faults);
    if stub.Err? {
      return Err(stub.error);
    }
    var present := fs.Exists(SolvePath);
    if !present {
      var written := fs.Write(SolvePath, Utf8.Encode(stub.value));
      if written.Err? {
        return Err(WriteError(written.error));
      }
      var exec := fs.SetExec(SolvePath);
      if exec.Err? {
        return Err(SetExecError(exec.error));
      }
    }
    return Ok(());
  }
}
