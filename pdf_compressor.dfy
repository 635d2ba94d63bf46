/** pdf_compressor.py: the other Ghostscript compressor, with its own
    level-to-preset table and a default level. */
module PdfCompressor {
  import opened Wrappers
  import opened Ghostscript
  import CompressPdf

  /** The preset `compress_pdf` chooses for a level. */
  function Settings(level: string): string {
    if level == "light" then "/prepress"
    else if level == "medium" then "/ebook"
    else if level == "high" then "/screen"
    else "/ebook"
  }

  /** The level used when the command line gives none. */
  const DefaultLevel := "medium"

  /** The argv `compress_pdf` runs. */
  function GsCommand(inputFile: string, outputFile: string, level: string): seq<string> {
    ["gs", Device, Compatibility, "-dPDFSETTINGS=" + Settings(level)] + Quiet + [OutputFile(outputFile), inputFile]
  }

  /** The level `main` reads from `sys.argv`. */
  function Level(argv: seq<string>): string {
    if |argv| > 2 then argv[2] else DefaultLevel
  }

  /** What `main` prints: the report on standard output on success, the
      error record on standard error otherwise. */
  datatype Report = Compressed(compressedPdf: string, originalSize: nat, compressedSize: nat) | Failed(error: string)

  datatype Outcome = Outcome(stdout: Option<Report>, stderr: Option<Report>, status: int)

  /** The text of the `IndexError` raised by `sys.argv[1]` when it is absent. */
  const IndexErrorText := "list index out of range"

  /** The outside world, as for `compress_pdf.py`. */
  datatype Environment = Environment(
    tempInput: string,
    tempOutput: string,
    decode: string -> Result<Bytes, string>,
    run: seq<string> -> Option<string>,
    output: Bytes,
    encode: Bytes -> string)

  /** `main` on `sys.argv`: a missing input raises inside the `try` like any
      other failure. */
  function Command(env: Environment, argv: seq<string>): Outcome {
    if |argv| < 2 then Outcome(None, Some(Failed(IndexErrorText)), 1)
    else
      match env.decode(argv[1])
      case Err(message) => Outcome(None, Some(Failed(message)), 1)
      case Ok(data) =>
        match env.run(GsCommand(env.tempInput, env.tempOutput, Level(argv)))
        case Some(message) => Outcome(None, Some(Failed(message)), 1)
        case None => Outcome(Some(Compressed(env.encode(env.output), |data|, |env.output|)), None, 0)
  }

  // ---------------------------------------------------------------------
  // Properties

  /** Every level yields a preset, an unknown level and a missing one yield
      medium's, and the resolution falls strictly from light to medium to
      high. */
  lemma SettingsArePresets(level: string)
    ensures Resolution(Settings(level)).Some?
    ensures level != "light" && level != "high" ==> Settings(level) == Settings(DefaultLevel)
    ensures Resolution(Settings("light")).value > Resolution(Settings("medium")).value > Resolution(Settings("high")).value
  {
  }

  /** Without a level argument the command is medium's. */
  lemma DefaultIsMedium(env: Environment, argv: seq<string>)
    requires |argv| == 2
    ensures GsCommand(env.tempInput, env.tempOutput, Level(argv)) == GsCommand(env.tempInput, env.tempOutput, "medium")
  {
  }

  /** Exit status 0 exactly when there is an input argument and decoding
      and Ghostscript succeed; only then is anything printed on standard
      output, with the decoded input's length and the output's length. */
  lemma OutcomeCases(env: Environment, argv: seq<string>)
    ensures var o := Command(env, argv);
      (o.status == 0 <==>
        |argv| >= 2 && env.decode(argv[1]).Ok?
        && env.run(GsCommand(env.tempInput, env.tempOutput, Level(argv))) == None)
      && (o.status != 0 ==> o.status == 1 && o.stdout == None && o.stderr.Some? && o.stderr.value.Failed?)
      && (o.status == 0 ==> o.stdout == Some(Compressed(env.encode(env.output), |env.decode(argv[1]).value|, |env.output|)))
  {
  }

  /** The two Ghostscript scripts build the same command except for the
      preset, and they pick a different preset for every level: the same
      request compresses differently depending on which script runs. */
  lemma ScriptsDisagree(inputFile: string, outputFile: string, level: string)
    ensures var a := GsCommand(inputFile, outputFile, level);
      var b := CompressPdf.GsCommand(inputFile, outputFile, CompressPdf.Quality(level));
      |a| == |b| && (forall i :: 0 <= i < |a| && i != 3 ==> a[i] == b[i]) && a[3] != b[3]
    ensures Settings(level) != "/" + CompressPdf.Quality(level)
  {
    var q := CompressPdf.Quality(level);
    assert "/" + "printer" == "/printer";
    assert "/" + "prepress" == "/prepress";
    assert "/" + "ebook" == "/ebook";
    assert Settings(level) != "/" + q by {
      if level == "light" {
        assert Settings(level)[3] != ("/" + q)[3];
      } else if level == "high" {
        assert Settings(level)[1] != ("/" + q)[1];
      } else {
        assert Settings(level)[1] != ("/" + q)[1];
      }
    }
    var a := GsCommand(inputFile, outputFile, level);
    var b := CompressPdf.GsCommand(inputFile, outputFile, q);
    assert a[3] == "-dPDFSETTINGS=" + Settings(level);
    assert b[3] == "-dPDFSETTINGS=" + ("/" + q);
    assert a[3][14..] != b[3][14..];
  }

  /** At every level this script keeps images at no higher a resolution than
      compress_pdf.py does, and strictly lower for medium and high. */
  lemma LowerResolutionThanCompressPdf(level: string)
    ensures Resolution(Settings(level)).value <= Resolution("/" + CompressPdf.Quality(level)).value
    ensures level != "light" ==> Resolution(Settings(level)).value < Resolution("/" + CompressPdf.Quality(level)).value
  {
    CompressPdf.QualityIsPreset(level);
    CompressPdf.QualityIsPreset("medium");
  }
}
