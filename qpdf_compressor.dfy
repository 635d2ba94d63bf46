/** qpdf_compressor.py: compress a base64-encoded PDF with two qpdf passes
    chosen by a compression level, and report the sizes in a result record. */
module QpdfCompressor {
  import opened Wrappers

  // ---------------------------------------------------------------------
  // Paths and command lines

  /** `os.path.join(dir, name)` for a relative `name`. */
  function Join(dir: string, name: string): (r: string)
    ensures |r| >= |name| && r[|r| - |name|..] == name
  {
    if dir == [] || dir[|dir| - 1] == '/' then dir + name else dir + "/" + name
  }

  /** The three files inside the temporary directory. */
  const InputName := "input.pdf"
  const OptimizedName := "optimized.pdf"
  const OutputName := "output.pdf"

  /** The options both passes start from. */
  const BaseFlags := ["--linearize", "--compress-streams=y", "--object-streams=generate"]

  /** The first pass: always the base options, from the input to the
      intermediate file. */
  function FirstPass(input: string, optimized: string): seq<string> {
    ["qpdf"] + BaseFlags + [input, optimized]
  }

  /** The options of the second pass for each level. */
  function LevelFlags(level: string): seq<string> {
    if level == "light" then
      ["--linearize", "--compress-streams=y", "--preserve-unreferenced=y"]
    else if level == "medium" then
      BaseFlags + ["--recompress-flate"]
    else if level == "high" then
      BaseFlags + ["--recompress-flate", "--compression-level=9", "--min-version=1.5", "--remove-unreferenced"]
    else
      BaseFlags
  }

  /** The second pass, from the intermediate file to the output. */
  function SecondPass(level: string, optimized: string, output: string): seq<string> {
    ["qpdf"] + LevelFlags(level) + [optimized, output]
  }

  // ---------------------------------------------------------------------
  // The result record and the run

  /** The dictionary `compress_pdf_with_qpdf` returns. */
  datatype QpdfResult = QpdfResult(originalSize: nat, compressedSize: nat, compressedPdf: string, error: Option<string>)

  /** The record of the `except` branch. */
  function Failure(message: string): QpdfResult {
    QpdfResult(0, 0, "", Some(message))
  }

  /** The outside world, as the script sees it: what decoding the input
      gives (the bytes, or the text of the exception), what running a
      command gives (None when it exits with status 0, else the text of
      `CalledProcessError`), the bytes the second pass leaves in the output
      file, and base64 encoding of those. */
  datatype Environment = Environment(
    decode: string -> Result<Bytes, string>,
    run: seq<string> -> Option<string>,
    output: Bytes,
    encode: Bytes -> string)

  /** `compress_pdf_with_qpdf(input_data, level)` with `dir` the fresh
      temporary directory. */
  function CompressWithQpdf(env: Environment, dir: string, inputData: string, level: string): QpdfResult {
    var input, optimized, output := Join(dir, InputName), Join(dir, OptimizedName), Join(dir, OutputName);
    match env.decode(inputData)
    case Err(message) => Failure(message)
    case Ok(data) =>
      match env.run(FirstPass(input, optimized))
      case Some(message) => Failure(message)
      case None =>
        match env.run(SecondPass(level, optimized, output))
        case Some(message) => Failure(message)
        case None => QpdfResult(|data|, |env.output|, env.encode(env.output), None)
  }

  /** What `main` prints and the status it exits with. */
  datatype Outcome = Outcome(printed: QpdfResult, status: int)

  const ArgumentError := "Geçersiz argüman sayısı. Base64 PDF ve sıkıştırma seviyesi gerekli."

  /** `main` on `sys.argv`. */
  function Command(env: Environment, dir: string, argv: seq<string>): Outcome {
    if |argv| < 3 then Outcome(Failure(ArgumentError), 1)
    else Outcome(CompressWithQpdf(env, dir, argv[1], argv[2]), 0)
  }

  // ---------------------------------------------------------------------
  // Properties

  /** Joining is injective in the name, so the three temporary files are
      distinct whatever the directory. */
  lemma JoinInjective(dir: string, a: string, b: string)
    requires Join(dir, a) == Join(dir, b)
    ensures a == b
  {
    if dir == [] || dir[|dir| - 1] == '/' {
      assert a == Join(dir, a)[|dir|..];
    } else {
      assert a == Join(dir, a)[|dir| + 1..];
    }
  }

  lemma TempFilesDistinct(dir: string)
    ensures Join(dir, InputName) != Join(dir, OptimizedName)
    ensures Join(dir, InputName) != Join(dir, OutputName)
    ensures Join(dir, OptimizedName) != Join(dir, OutputName)
  {
    if Join(dir, InputName) == Join(dir, OptimizedName) {
      JoinInjective(dir, InputName, OptimizedName);
    }
    if Join(dir, InputName) == Join(dir, OutputName) {
      JoinInjective(dir, InputName, OutputName);
    }
    if Join(dir, OptimizedName) == Join(dir, OutputName) {
      JoinInjective(dir, OptimizedName, OutputName);
    }
  }

  /** The passes chain: the second reads the file the first writes, every
      argument between the program name and the two paths is an option, and
      only the last pass writes the output. */
  lemma PassesChain(level: string, input: string, optimized: string, output: string)
    ensures FirstPass(input, optimized)[|FirstPass(input, optimized)| - 1] == SecondPass(level, optimized, output)[|SecondPass(level, optimized, output)| - 2]
    ensures forall f :: f in LevelFlags(level) ==> |f| > 2 && f[..2] == "--"
    ensures forall f :: f in BaseFlags ==> |f| > 2 && f[..2] == "--"
  {
  }

  /** Stronger levels only add options: medium adds flate recompression to
      the base options, and high adds maximum compression, a minimum PDF
      version and removal of unreferenced objects on top of medium. Light
      is not on that line: it drops object streams and keeps unreferenced
      objects, which high removes. */
  lemma LevelsNested()
    ensures LevelFlags("medium")[..|BaseFlags|] == BaseFlags
    ensures LevelFlags("high")[..|LevelFlags("medium")|] == LevelFlags("medium")
    ensures "--object-streams=generate" !in LevelFlags("light")
    ensures "--preserve-unreferenced=y" in LevelFlags("light") && "--remove-unreferenced" in LevelFlags("high")
  {
    var m := LevelFlags("medium");
    assert m == BaseFlags + ["--recompress-flate"];
    assert LevelFlags("high") == m + ["--compression-level=9", "--min-version=1.5", "--remove-unreferenced"];
    assert LevelFlags("light")[2] == "--preserve-unreferenced=y";
  }

  /** An unknown level does not get medium's options, although the branch
      is commented as the medium default: its second pass repeats the first
      pass's options and adds no recompression. */
  lemma UnknownLevelRepeatsFirstPass(level: string)
    requires level != "light" && level != "medium" && level != "high"
    ensures SecondPass(level, "a", "b")[1..4] == FirstPass("x", "y")[1..4]
    ensures "--recompress-flate" !in LevelFlags(level)
    ensures LevelFlags(level) != LevelFlags("medium")
  {
    assert |LevelFlags(level)| == 3 && |LevelFlags("medium")| == 4;
  }

  /** The result reports no error exactly when decoding and both passes
      succeed; the sizes are then the lengths of the decoded input and of
      the output, and after a failure both sizes are 0 and the PDF is empty. */
  lemma ResultCases(env: Environment, dir: string, inputData: string, level: string)
    ensures var r := CompressWithQpdf(env, dir, inputData, level);
      var optimized := Join(dir, OptimizedName);
      (r.error == None <==>
        env.decode(inputData).Ok?
        && env.run(FirstPass(Join(dir, InputName), optimized)) == None
        && env.run(SecondPass(level, optimized, Join(dir, OutputName))) == None)
      && (r.error == None ==>
        r.originalSize == |env.decode(inputData).value| && r.compressedSize == |env.output|
        && r.compressedPdf == env.encode(env.output))
      && (r.error != None ==> r.originalSize == 0 && r.compressedSize == 0 && r.compressedPdf == [])
  {
  }

  /** `main` exits with status 1 only for a short command line; a failed
      compression is reported in the record, with status 0. */
  lemma CommandStatus(env: Environment, dir: string, argv: seq<string>)
    ensures Command(env, dir, argv).status == 1 <==> |argv| < 3
    ensures Command(env, dir, argv).status != 1 ==> Command(env, dir, argv).status == 0
    ensures |argv| < 3 ==> Command(env, dir, argv).printed.error == Some(ArgumentError)
    ensures |argv| >= 3 ==> Command(env, dir, argv).printed == CompressWithQpdf(env, dir, argv[1], argv[2])
  {
  }
}
