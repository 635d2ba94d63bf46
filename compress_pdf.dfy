/** compress_pdf.py: compress a base64-encoded PDF with Ghostscript at a
    quality chosen from a compression level, and print the sizes as JSON. */
module CompressPdf {
  import opened Wrappers
  import opened Ghostscript

  /** The quality name `main` chooses for a level. */
  function Quality(level: string): string {
    if level == "light" then "printer"
    else if level == "medium" then "prepress"
    else if level == "high" then "ebook"
    else "prepress"
  }

  /** The default of `compress_pdf`'s `quality` parameter, which `main`
      always overrides. */
  const DefaultQuality := "printer"

  /** The argv `compress_pdf` runs: the preset is the quality with a `/`
      in front, and the input file comes last. */
  function GsCommand(inputFile: string, outputFile: string, quality: string): seq<string> {
    ["gs", Device, Compatibility, "-dPDFSETTINGS=/" + quality] + Quiet + [OutputFile(outputFile), inputFile]
  }

  /** What `main` prints on standard output. */
  datatype Report = Compressed(compressedPdf: string, originalSize: nat, compressedSize: nat) | Failed(error: string)

  /** The usage line `main` prints on standard error. */
  const Usage := "Kullanım: python compress_pdf.py <base64_data> <compression_level>"

  /** Standard output (None: nothing), standard error's last message and the
      exit status. */
  datatype Outcome = Outcome(stdout: Option<Report>, stderr: Option<string>, status: int)

  /** The outside world: the two temporary file names, base64 decoding (the
      bytes or the exception text), running a command (None for exit status
      0, else the exception text), the bytes Ghostscript writes and base64
      encoding. */
  datatype Environment = Environment(
    tempInput: string,
    tempOutput: string,
    decode: string -> Result<Bytes, string>,
    run: seq<string> -> Option<string>,
    output: Bytes,
    encode: Bytes -> string)

  /** `main` on `sys.argv`. */
  function Command(env: Environment, argv: seq<string>): Outcome {
    if |argv| < 3 then Outcome(None, Some(Usage), 1)
    else
      var quality := Quality(argv[2]);
      match env.decode(argv[1])
      case Err(message) => Outcome(Some(Failed(message)), Some("Hata: " + message), 1)
      case Ok(data) =>
        match env.run(GsCommand(env.tempInput, env.tempOutput, quality))
        case Some(message) => Outcome(Some(Failed(message)), Some("Hata: " + message), 1)
        case None =>
          Outcome(Some(Compressed(env.encode(env.output), |data|, |env.output|)),
                  Some(env.tempOutput + " başarıyla sıkıştırıldı."), 0)
  }

  // ---------------------------------------------------------------------
  // Properties

  /** Every level yields a Ghostscript preset, an unknown level yields
      medium's, and the resolution never rises from light to medium to high. */
  lemma QualityIsPreset(level: string)
    ensures Resolution("/" + Quality(level)).Some?
    ensures level != "light" && level != "high" ==> Quality(level) == Quality("medium")
    ensures Resolution("/" + Quality("light")).value >= Resolution("/" + Quality("medium")).value
    ensures Resolution("/" + Quality("medium")).value > Resolution("/" + Quality("high")).value
  {
    assert "/" + "printer" == "/printer";
    assert "/" + "prepress" == "/prepress";
    assert "/" + "ebook" == "/ebook";
  }

  /** The default of `compress_pdf`'s `quality` parameter is the quality
      `main` picks for light, not the one it picks for medium or an unknown
      level. */
  lemma DefaultIsLight(level: string)
    ensures Quality(level) == DefaultQuality <==> level == "light"
  {
  }

  /** Light and medium both map to 300-dpi presets, so they keep images at
      the same resolution. */
  lemma LightAndMediumSameResolution()
    ensures Quality("light") != Quality("medium")
    ensures Resolution("/" + Quality("light")) == Resolution("/" + Quality("medium")) == Some(300)
  {
    QualityIsPreset("light");
  }

  /** The preset argument carries the quality, and the command ends by
      naming the output file and then the input. */
  lemma CommandCarriesQuality(inputFile: string, outputFile: string, quality: string)
    ensures var c := GsCommand(inputFile, outputFile, quality);
      |c| == 9 && c[0] == "gs" && c[3][..15] == "-dPDFSETTINGS=/" && c[3][15..] == quality
      && c[7][13..] == outputFile && c[8] == inputFile
  {
  }

  /** Exit status 0 exactly when decoding and Ghostscript succeed; the
      report then gives the decoded input's length and the output's length,
      and every failure after the argument check prints an error report. */
  lemma OutcomeCases(env: Environment, argv: seq<string>)
    ensures var o := Command(env, argv);
      (o.status == 0 <==>
        |argv| >= 3 && env.decode(argv[1]).Ok?
        && env.run(GsCommand(env.tempInput, env.tempOutput, Quality(argv[2]))) == None)
      && (o.status != 0 ==> o.status == 1)
      && (o.status == 0 ==> o.stdout == Some(Compressed(env.encode(env.output), |env.decode(argv[1]).value|, |env.output|)))
      && (o.status == 1 && |argv| >= 3 ==> o.stdout.Some? && o.stdout.value.Failed?)
      && (|argv| < 3 ==> o.stdout == None && o.stderr == Some(Usage))
  {
  }
}
