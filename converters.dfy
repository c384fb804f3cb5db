/**
 * The converter classes: `MarkdownConverter` with its three overridable
 * fields, and the PDF and DOCX subclasses that fix the extension. The
 * subclass is a tag on the object, since each subclass changes only the
 * extension and the `convert` step.
 */
module Converters {
  import opened Results
  import opened Naming

  /** Which class an object is: the abstract base class or one of its two subclasses. */
  datatype Variant = Base | Pdf | Docx

  /** The class-level `_output_extension` each class declares. */
  function DefaultExtension(v: Variant): (ext: Option<string>)
    ensures ext.None? <==> v == Base
  {
    match v
    case Base => None
    case Pdf => Some(".pdf")
    case Docx => Some(".docx")
  }

  /** The two subclasses write to distinct extensions. */
  lemma ExtensionsDistinct(v: Variant, w: Variant)
    requires v != Base && w != Base
    ensures DefaultExtension(v) == DefaultExtension(w) <==> v == w
  {
  }

  /**
   * The path `os.path.join(os.getcwd(), output_location, file_name)`, kept
   * as its three parts: the joining rules of the operating system are not
   * modelled.
   */
  datatype OutputPath = OutputPath(cwd: string, directory: string, fileName: string)

  /** The files that exist, each with its text; a path exists exactly when it is a key. */
  type FileSystem = map<string, string>

  class MarkdownConverter {
    /** The class of the object. */
    const variant: Variant
    /** The output directory given to the constructor. */
    const outputLocation: string
    /** `_output_extension`: the class default unless the instance overrides it. */
    var outputExtension: Option<string>
    /** `_output_prefix`: "" unless the instance overrides it. */
    var outputPrefix: Option<string>
    /** `_input_file_name`: `None` until an input path is recorded. */
    var inputFileName: Option<string>

    /** A converter of class `variant` writing under `outputLocation`, with the class defaults. */
    constructor (variant: Variant, outputLocation: string)
      ensures this.variant == variant && this.outputLocation == outputLocation
      ensures outputExtension == DefaultExtension(variant)
      ensures outputPrefix == Some("")
      ensures inputFileName == None
    {
      this.variant := variant;
      this.outputLocation := outputLocation;
      outputExtension := DefaultExtension(variant);
      outputPrefix := Some("");
      inputFileName := None;
    }

    /**
     * The `output_file_name` property for working directory `cwd`: it fails
     * with a configuration error exactly when no extension is set, and
     * otherwise names the file `FileName` gives, under the output directory.
     */
    function OutputFileName(cwd: string): (r: Result<OutputPath>)
      reads this
      ensures r.Failure? <==> outputExtension.None?
      ensures r.Failure? ==> r.error == ConfigurationError
      ensures r.Success? ==> r.value.cwd == cwd && r.value.directory == outputLocation
      ensures r.Success? ==> HasSuffix(r.value.fileName, outputExtension.value)
      ensures r.Success? ==> Success(r.value.fileName) == FileName(outputExtension, outputPrefix, inputFileName)
    {
      match FileName(outputExtension, outputPrefix, inputFileName)
      case Failure(e) => Failure(e)
      case Success(name) => Success(OutputPath(cwd, outputLocation, name))
    }

    /**
     * `read_input_file`: a missing path raises `FileNotFoundError` and
     * records nothing; an existing one is recorded and its text returned.
     */
    method ReadInputFile(fs: FileSystem, path: string) returns (r: Result<string>)
      modifies this`inputFileName
      ensures path in fs ==> r == Success(fs[path]) && inputFileName == Some(path)
      ensures path !in fs ==> r == Failure(FileNotFound(path)) && inputFileName == old(inputFileName)
    {
      if path !in fs {
        return Failure(FileNotFound(path));
      }
      inputFileName := Some(path);
      r := Success(fs[path]);
    }

    /**
     * The naming side of `MarkdownToPdfConverter.convert`: read the input
     * (which fails on a missing file), then save under `output_file_name`.
     * The result is the path saved to.
     */
    method ConvertPdf(fs: FileSystem, path: string, cwd: string) returns (r: Result<OutputPath>)
      requires variant == Pdf
      modifies this`inputFileName
      ensures path !in fs ==> r == Failure(FileNotFound(path)) && inputFileName == old(inputFileName)
      ensures path in fs ==> inputFileName == Some(path) && r == OutputFileName(cwd)
    {
      var markdown := ReadInputFile(fs, path);
      if markdown.Failure? {
        return Failure(markdown.error);
      }
      r := OutputFileName(cwd);
    }

    /**
     * The naming side of `MarkdownToDocxConverter.convert`: record the input
     * path with no existence check, then compute `output_file_name`, which
     * is where the document is saved.
     */
    method ConvertDocx(path: string, cwd: string) returns (r: Result<OutputPath>)
      requires variant == Docx
      modifies this`inputFileName
      ensures inputFileName == Some(path)
      ensures r == OutputFileName(cwd)
    {
      inputFileName := Some(path);
      r := OutputFileName(cwd);
    }

    /** `convert`, dispatched on the class; the base class raises `NotImplementedError`. */
    method Convert(fs: FileSystem, path: string, cwd: string) returns (r: Result<OutputPath>)
      modifies this`inputFileName
      ensures variant == Base ==> r == Failure(NotImplemented) && inputFileName == old(inputFileName)
      ensures variant == Pdf && path !in fs ==> r == Failure(FileNotFound(path)) && inputFileName == old(inputFileName)
      ensures variant == Pdf && path in fs ==> inputFileName == Some(path) && r == OutputFileName(cwd)
      ensures variant == Docx ==> inputFileName == Some(path) && r == OutputFileName(cwd)
    {
      match variant
      case Base => r := Failure(NotImplemented);
      case Pdf => r := ConvertPdf(fs, path, cwd);
      case Docx => r := ConvertDocx(path, cwd);
    }
  }

  /**
   * A converter that has recorded no input and keeps its class defaults
   * names its output `" - " + extension`.
   */
  lemma FreshConverterFileName(c: MarkdownConverter, cwd: string)
    requires c.variant != Base
    requires c.outputExtension == DefaultExtension(c.variant)
    requires c.outputPrefix == Some("") && c.inputFileName == None
    ensures c.OutputFileName(cwd) == Success(OutputPath(cwd, c.outputLocation, " - " + DefaultExtension(c.variant).value))
  {
    var ext := DefaultExtension(c.variant).value;
    FileNameBeforeRead(ext, Some(""));
    assert "" + " - " + ext == " - " + ext;
  }

  /**
   * After a converter with the default prefix has recorded `path`, its file
   * name is `" - "`, the stem of `path`, and its extension.
   */
  lemma RecordedConverterFileName(c: MarkdownConverter, cwd: string, path: string)
    requires c.outputExtension.Some?
    requires c.outputPrefix == Some("") && c.inputFileName == Some(path)
    ensures c.OutputFileName(cwd) == Success(OutputPath(cwd, c.outputLocation, " - " + Stem(path) + c.outputExtension.value))
  {
    assert "" + " - " + Stem(path) + c.outputExtension.value == " - " + Stem(path) + c.outputExtension.value;
  }

  /**
   * Converting "report.md" to PDF under "out" saves to " - report.pdf"
   * there: the default prefix leaves a leading space before the dash.
   */
  method PdfReportScenario(cwd: string) returns (r: Result<OutputPath>)
    ensures r == Success(OutputPath(cwd, "out", " - report.pdf"))
  {
    var fs: FileSystem := map["report.md" := "# Title\n\nSome **bold** text."];
    var c := new MarkdownConverter(Pdf, "out");
    assert "report.md" in fs;
    r := c.Convert(fs, "report.md", cwd);
    assert r == c.OutputFileName(cwd);
    FileNameCollisionOnExtension("md");
    assert "report." + "md" == "report.md";
  }

  /** Converting a missing input to PDF fails with `FileNotFoundError` before anything is named. */
  method PdfMissingInputScenario(cwd: string) returns (r: Result<OutputPath>, recorded: Option<string>)
    ensures r == Failure(FileNotFound("missing.md"))
    ensures recorded == None
  {
    var fs: FileSystem := map["report.md" := "# Title"];
    var c := new MarkdownConverter(Pdf, "out");
    r := c.Convert(fs, "missing.md", cwd);
    recorded := c.inputFileName;
  }
}
