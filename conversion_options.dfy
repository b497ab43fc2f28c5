/**
 * The output file name taken from the content's `<title>`, and the fixed option record
 * handed to the PDF renderer.
 */
module ConversionOptions {
  import opened Optional
  import opened TitleRegex

  /** The base name used when the content has no title match. */
  const DefaultName: string := "document"
  const PdfExtension: string := ".pdf"

  /**
   * `titleMatch ? titleMatch[1] : 'document'`. A successful match is truthy even when its
   * capture is empty, so an empty title gives an empty base name, not the default.
   */
  function BaseName(html: string): (name: string)
    ensures (forall p: nat, k: nat :: !MatchAt(html, p, k)) ==> name == DefaultName
    ensures forall m :: IsFirstMatch(html, m) ==> name == m.capture
  {
    var found := Exec(html);
    assert forall m :: IsFirstMatch(html, m) ==> found == Some(m) by {
      forall m | IsFirstMatch(html, m)
        ensures found == Some(m)
      {
        ExecIsTheFirstMatch(html, m);
      }
    }
    if found.Some? then found.value.capture else DefaultName
  }

  /** A decimal constant `mantissa / 10^exponent`, carried as written and never computed with. */
  datatype Decimal = Decimal(mantissa: nat, exponent: nat)

  function Pow10(e: nat): nat {
    if e == 0 then 1 else 10 * Pow10(e - 1)
  }

  datatype ImageOptions = ImageOptions(imageType: string, quality: Decimal)

  /** `windowWidth: undefined` is the absent value `None`. */
  datatype CanvasOptions = CanvasOptions(
    scale: nat, useCors: bool, logging: bool, removeContainer: bool, windowWidth: Option<nat>)

  datatype Orientation = Portrait | Landscape

  datatype JsPdfOptions = JsPdfOptions(
    unit: string, format: string, orientation: Orientation, putOnlyUsedFonts: bool, floatPrecision: nat)

  datatype PageBreakOptions = PageBreakOptions(mode: seq<string>)

  /** The option object passed to `html2pdf().set(...)`. */
  datatype PdfOptions = PdfOptions(
    margin: seq<int>,
    filename: string,
    image: ImageOptions,
    html2canvas: CanvasOptions,
    jsPdf: JsPdfOptions,
    pagebreak: PageBreakOptions)

  /** The page-break modes the renderer understands. */
  const PageBreakModes: set<string> := {"avoid-all", "css", "legacy"}

  /**
   * A sanity condition on the option constants: non-negative margins, a quality in (0, 1],
   * a scale of at least 1, and known, distinct page-break modes. The exact values are
   * stated by `FixedSettings`.
   */
  predicate WellFormed(o: PdfOptions) {
    && |o.margin| == 4
    && (forall i :: 0 <= i < 4 ==> o.margin[i] >= 0)
    && 0 < o.image.quality.mantissa <= Pow10(o.image.quality.exponent)
    && o.html2canvas.scale >= 1
    && (forall i :: 0 <= i < |o.pagebreak.mode| ==> o.pagebreak.mode[i] in PageBreakModes)
    && (forall i, j :: 0 <= i < j < |o.pagebreak.mode| ==> o.pagebreak.mode[i] != o.pagebreak.mode[j])
  }

  /** The file name with its trailing `.pdf` removed. */
  function StripExtension(f: string): (base: string)
    requires |f| >= |PdfExtension|
  {
    f[..|f| - |PdfExtension|]
  }

  /**
   * The option record built for a base name. Everything but `filename` is a constant;
   * `filename` is the base name with `.pdf` appended, and stripping `.pdf` gives it back.
   */
  function Options(baseName: string): (o: PdfOptions)
    ensures WellFormed(o)
    ensures |o.filename| >= |PdfExtension| && o.filename[|o.filename| - |PdfExtension|..] == PdfExtension
    ensures StripExtension(o.filename) == baseName
  {
    PdfOptions(
      margin := [10, 10, 20, 10],
      filename := baseName + PdfExtension,
      image := ImageOptions(imageType := "jpeg", quality := Decimal(98, 2)),
      html2canvas := CanvasOptions(
        scale := 2, useCors := true, logging := true, removeContainer := true, windowWidth := None),
      jsPdf := JsPdfOptions(
        unit := "mm", format := "a4", orientation := Portrait, putOnlyUsedFonts := true, floatPrecision := 16),
      pagebreak := PageBreakOptions(mode := ["avoid-all", "css", "legacy"]))
  }

  /**
   * The fixed settings: margins 10, 10, 20, 10; JPEG at quality 0.98; canvas scale 2 with
   * cross-origin fetching; millimetres, A4, portrait; page breaks tried as `avoid-all`, then
   * `css`, then `legacy`.
   */
  lemma FixedSettings(baseName: string)
    ensures var o := Options(baseName);
      && o.margin == [10, 10, 20, 10]
      && o.image == ImageOptions("jpeg", Decimal(98, 2))
      && o.html2canvas.scale == 2 && o.html2canvas.useCors
      && o.jsPdf.unit == "mm" && o.jsPdf.format == "a4" && o.jsPdf.orientation == Portrait
      && o.pagebreak.mode == ["avoid-all", "css", "legacy"]
  {
  }

  /** Two option records differ only in their file names: every other field is a constant. */
  lemma OptionsDifferOnlyInFileName(a: string, b: string)
    ensures Options(a).(filename := Options(b).filename) == Options(b)
  {
  }

  /** Different base names give different option records: the file name carries the base name. */
  lemma OptionsInjective(a: string, b: string)
    ensures Options(a) == Options(b) <==> a == b
  {
    if Options(a) == Options(b) {
      assert StripExtension(Options(a).filename) == StripExtension(Options(b).filename);
    }
  }

  /** The renderer's file name for some content: its first title capture, else `document`, plus `.pdf`. */
  lemma FileNameFromContent(html: string)
    ensures Exec(html).Some? ==> Options(BaseName(html)).filename == Exec(html).value.capture + PdfExtension
    ensures Exec(html).None? ==> Options(BaseName(html)).filename == "document.pdf"
  {
  }

  /**
   * An empty title at the first opening tag that has a match gives the file name `.pdf`:
   * the fallback applies only when nothing matches.
   */
  lemma EmptyTitleGivesBareExtension(html: string, i: nat)
    requires TagAt(html, i, OpenTag) && TagAt(html, i + |OpenTag|, CloseTag)
    requires NoMatchBetween(html, 0, i)
    ensures Options(BaseName(html)).filename == PdfExtension
  {
    assert MatchAt(html, i, 0);
    assert IsFirstMatch(html, Match(i, []));
  }
}
