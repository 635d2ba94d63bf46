/** The Ghostscript `-dPDFSETTINGS` presets both Ghostscript scripts choose
    from, with the image resolution Ghostscript's documentation gives each. */
module Ghostscript {
  import opened Wrappers

  /** The resolution, in dots per inch, a preset downsamples colour images
      to; None for a name that is not a preset. */
  function Resolution(preset: string): Option<nat> {
    if preset == "/screen" then Some(72)
    else if preset == "/ebook" then Some(150)
    else if preset == "/printer" then Some(300)
    else if preset == "/prepress" then Some(300)
    else None
  }

  /** The options both scripts pass before and after the preset. */
  const Device := "-sDEVICE=pdfwrite"
  const Compatibility := "-dCompatibilityLevel=1.4"
  const Quiet := ["-dNOPAUSE", "-dQUIET", "-dBATCH"]

  /** `-sOutputFile=<path>` */
  function OutputFile(path: string): string {
    "-sOutputFile=" + path
  }
}
