/** Contents of known shape and what the conversion makes of them. */
module Scenarios {
  import opened Optional
  import opened TitleRegex
  import opened ConversionOptions
  import opened AssetGate
  import opened PdfControl

  /** `open` spells the opening tag and `close` the closing one, in any ASCII case. */
  predicate Tags(open: string, close: string) {
    |open| == |OpenTag| && TagAt(open, 0, OpenTag) && |close| == |CloseTag| && TagAt(close, 0, CloseTag)
  }

  /** Text that `.` can consume and that cannot hold a tag. */
  predicate PlainText(t: string) {
    forall q :: 0 <= q < |t| ==> t[q] != '<' && !IsLineTerminator(t[q])
  }

  /** A character whose lower case is `<` is `<`. */
  lemma AngleOnlyFromAngle(c: char)
    ensures AsciiLower(c) == '<' <==> c == '<'
  {
  }

  /** A tag found at `p` fixes the lower case of each character it covers. */
  lemma TagChar(s: string, p: nat, tag: string, j: nat)
    requires j < |tag|
    ensures TagAt(s, p, tag) ==> p + j < |s| && AsciiLower(s[p + j]) == tag[j]
  {
  }

  /** No tag starts at a position whose character is not `<`. */
  lemma NoTagWithoutAngle(s: string, p: nat, tag: string)
    requires p < |s| && s[p] != '<' && |tag| > 0 && tag[0] == '<'
    ensures !TagAt(s, p, tag)
  {
    AngleOnlyFromAngle(s[p]);
    TagChar(s, p, tag, 0);
  }

  /** Content opening with a title whose text is plain: that text is the capture, at position 0. */
  lemma TitleAtStart(open: string, title: string, close: string, rest: string)
    requires Tags(open, close) && PlainText(title)
    ensures Exec(open + title + close + rest) == Some(Match(0, title))
  {
    var s := open + title + close + rest;
    var c := |OpenTag| + |title|;
    forall j | 0 <= j < |OpenTag|
      ensures AsciiLower(s[0 + j]) == OpenTag[j]
    {
      assert s[j] == open[j];
    }
    forall j | 0 <= j < |CloseTag|
      ensures AsciiLower(s[c + j]) == CloseTag[j]
    {
      assert s[c + j] == close[j];
    }
    forall q | |OpenTag| <= q < c
      ensures s[q] == title[q - |OpenTag|]
    {
    }
    assert s[|OpenTag|..c] == title;
    assert MatchAt(s, 0, |title|);
    forall k: nat | k < |title|
      ensures !MatchAt(s, 0, k)
    {
      NoTagWithoutAngle(s, |OpenTag| + k, CloseTag);
    }
    ExecIsTheFirstMatch(s, Match(0, title));
  }

  /**
   * A single title whose text holds a line terminator gives no match at all: the fallback
   * name `document` is used.
   */
  lemma LineBreakInTitle(open: string, title: string, close: string, b: nat)
    requires Tags(open, close)
    requires forall q :: 0 <= q < |title| ==> title[q] != '<'
    requires b < |title| && IsLineTerminator(title[b])
    ensures Exec(open + title + close).None?
    ensures BaseName(open + title + close) == DefaultName
  {
    var s := open + title + close;
    var c := |OpenTag| + |title|;
    forall j | 0 <= j < |OpenTag|
      ensures AsciiLower(s[0 + j]) == OpenTag[j]
    {
      assert s[j] == open[j];
    }
    forall q | |OpenTag| <= q < c
      ensures s[q] == title[q - |OpenTag|] && s[q] != '<'
    {
    }
    forall q | |OpenTag| <= q <= |OpenTag| + b
      ensures !TagAt(s, q, CloseTag)
    {
      NoTagWithoutAngle(s, q, CloseTag);
    }
    LineTerminatorBlocksMatch(s, 0, |OpenTag| + b);
    forall p: nat, k: nat
      ensures !MatchAt(s, p, k)
    {
      if 0 < p < |OpenTag| {
        assert s[p] == open[p];
        AngleOnlyFromAngle(open[p]);
        assert AsciiLower(open[p + 0]) == OpenTag[p];
        NoTagWithoutAngle(s, p, OpenTag);
      } else if |OpenTag| <= p < c {
        NoTagWithoutAngle(s, p, OpenTag);
      } else if p == c {
        assert s[c + 1] == close[1];
        assert AsciiLower(close[0 + 1]) == CloseTag[1];
        TagChar(s, p, OpenTag, 1);
      } else if p == c + 1 {
        assert s[c + 1] == close[1];
        AngleOnlyFromAngle(close[1]);
        assert AsciiLower(close[0 + 1]) == CloseTag[1];
        NoTagWithoutAngle(s, p, OpenTag);
      }
    }
  }

  /** Content that is nothing but a title with plain text. */
  lemma TitleOnly(open: string, title: string, close: string)
    requires Tags(open, close) && PlainText(title)
    ensures BaseName(open + title + close) == title
  {
    TitleAtStart(open, title, close, "");
    assert open + title + close + "" == open + title + close;
  }

  lemma InvoiceBaseName(html: string)
    requires html == "<title>" + "Invoice" + "</title>"
    ensures BaseName(html) == "Invoice"
  {
    TitleOnly("<title>", "Invoice", "</title>");
  }

  lemma InvoiceTitle(html: string)
    requires html == "<title>" + "Invoice" + "</title>"
    ensures Options(BaseName(html)).filename == "Invoice.pdf"
  {
    InvoiceBaseName(html);
    InvoicePdf(BaseName(html));
  }

  lemma InvoicePdf(name: string)
    requires name == "Invoice"
    ensures Options(name).filename == "Invoice.pdf"
  {
  }

  lemma ReportPdf(name: string)
    requires name == "Report"
    ensures Options(name).filename == "Report.pdf"
  {
  }

  /** Tags in mixed case match, and of two titles the first one is used. */
  lemma MixedCaseTagsFirstTitle()
    ensures BaseName("<TITLE>" + "Report" + "</Title>" + "<p>Hello</p><title>Other</title>") == "Report"
  {
    TitleAtStart("<TITLE>", "Report", "</Title>", "<p>Hello</p><title>Other</title>");
  }

  lemma EmptyTitle(html: string)
    requires html == "<title>" + "" + "</title>"
    ensures Options(BaseName(html)).filename == ".pdf"
  {
    TitleOnly("<title>", "", "</title>");
  }

  lemma NewlineInTitle()
    ensures BaseName("<title>" + "a\nb" + "</title>") == "document"
  {
    LineBreakInTitle("<title>", "a\nb", "</title>", 1);
  }

  lemma ReportBaseName(html: string)
    requires html == "<title>" + "Report" + "</title>" + "<p>Hello</p>"
    ensures BaseName(html) == "Report"
  {
    TitleAtStart("<title>", "Report", "</title>", "<p>Hello</p>");
  }

  /** Normal path: a titled document without images is saved as `Report.pdf`, A4 portrait. */
  lemma ReportScenario(html: string)
    requires html == "<title>" + "Report" + "</title>" + "<p>Hello</p>"
    ensures var r := Convert(Some(html), html, [], RenderSucceeds);
      && r.outcome == Saved("Report.pdf")
      && r.effects[2].options.jsPdf.format == "a4"
      && r.effects[2].options.jsPdf.orientation == Portrait
      && r.effects[2].options.margin == [10, 10, 20, 10]
  {
    ReportBaseName(html);
    ReportPdf(BaseName(html));
    OnlyCompleteImagesAreReady([]);
  }

  /**
   * A report retitled by an `updateView` while its images load: the report is what is rendered,
   * but the file is saved as `Invoice.pdf`.
   */
  lemma RetitledDuringWait(report: string, invoice: string)
    requires report == "<title>" + "Report" + "</title>" + "<p>Hello</p>"
    requires invoice == "<title>" + "Invoice" + "</title>"
    ensures var r := Convert(Some(report), invoice, [Loads], RenderSucceeds);
      r.outcome == Saved("Invoice.pdf") && r.effects[0] == Staged(report)
  {
    InvoiceTitle(invoice);
  }

  /** Broken image: the image wait rejects, the failure is logged and no file is produced. */
  lemma BrokenImageScenario(html: string)
    requires html == "<img src=\"bad-url\">"
    ensures var r := Convert(Some(html), html, [Errors], RenderSucceeds);
      r.outcome == Failed(AssetLoadFailure) && r.effects == [Staged(html), HandlersRegistered(1), ErrorLogged(AssetLoadFailure)]
  {
    AnyErrorFails([Errors], 0);
  }
}
