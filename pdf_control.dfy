/**
 * The `pdfmulti` control: the stored HTML content and its preview, and the
 * "Download PDF" conversion run on that content.
 */
module PdfControl {
  import opened Optional
  import opened TitleRegex
  import opened ConversionOptions
  import opened AssetGate

  /** How the renderer's `.from(tempContainer).save()` chain settles. */
  datatype RenderOutcome = RenderSucceeds | RenderFails

  /** Why a conversion failed: the image wait rejected, or the renderer did. */
  datatype Failure = AssetLoadFailure | RenderFailure

  /**
   * How one conversion ends: returned at once on empty content, never finished while an image
   * neither loads nor errors, failed (caught and logged), or saved under a file name.
   */
  datatype Outcome = Aborted | Suspended | Failed(reason: Failure) | Saved(fileName: string)

  /** What a conversion does to the world, in order. */
  datatype Effect =
    | Staged(markup: string)          // temporary container created holding the content
    | HandlersRegistered(count: nat)  // `onload`/`onerror` set on the images not yet complete
    | Rendered(options: PdfOptions)   // `html2pdf().set(options).from(container).save()` started
    | FileOffered(name: string)       // the saved PDF handed to the browser
    | StagingRemoved                  // `tempContainer.remove()`
    | ErrorLogged(reason: Failure)    // `console.error` in the catch block

  datatype Run = Run(outcome: Outcome, effects: seq<Effect>)

  /** The content a conversion sees: unset and empty both read as `''`. */
  function CurrentMarkup(content: Option<string>): (html: string)
    ensures html == "" <==> content.None? || content.value == ""
    ensures content.Some? ==> html == content.value
  {
    content.GetOr("")
  }

  /**
   * The meaning of one conversion that starts on the stored `content`, given what the staged
   * copy's images do and how the renderer settles. `resumed` is the stored content when the
   * image wait ends: the title is read from `this._htmlContent` again at that point, and an
   * `updateView` that ran during the wait may have replaced it (it is then always a string).
   */
  function Convert(content: Option<string>, resumed: string, images: seq<ImageState>, render: RenderOutcome): (run: Run)
    ensures run.outcome == Aborted <==> CurrentMarkup(content) == ""
    ensures run.outcome == Aborted ==> run.effects == []
    ensures run.outcome != Aborted ==>
              && |run.effects| >= 2
              && run.effects[0] == Staged(CurrentMarkup(content))
              && run.effects[1] == HandlersRegistered(|images| - multiset(images)[Complete])
    ensures run.outcome == Suspended <==>
              CurrentMarkup(content) != "" && Errors !in images && NeverSettles in images
    ensures run.outcome == Failed(AssetLoadFailure) <==> CurrentMarkup(content) != "" && Errors in images
    ensures run.outcome == Failed(RenderFailure) <==>
              CurrentMarkup(content) != "" && Errors !in images && NeverSettles !in images && render == RenderFails
    ensures run.outcome.Saved? <==>
              CurrentMarkup(content) != "" && Errors !in images && NeverSettles !in images && render == RenderSucceeds
    ensures run.outcome == Suspended ==> |run.effects| == 2
    ensures run.outcome == Failed(AssetLoadFailure) ==>
              |run.effects| == 3 && run.effects[2] == ErrorLogged(AssetLoadFailure)
    ensures run.outcome == Failed(RenderFailure) ==>
              && |run.effects| == 4
              && run.effects[2] == Rendered(Options(BaseName(resumed)))
              && run.effects[3] == ErrorLogged(RenderFailure)
    ensures run.outcome.Saved? ==>
              && |run.effects| == 5
              && run.effects[2] == Rendered(Options(BaseName(resumed)))
              && run.effects[3] == FileOffered(run.outcome.fileName)
              && run.effects[4] == StagingRemoved
    ensures run.outcome.Saved? ==> run.outcome.fileName == BaseName(resumed) + PdfExtension
  {
    var html := CurrentMarkup(content);
    if html == "" then Run(Aborted, [])
    else
      var staged := [Staged(html), HandlersRegistered(|Registered(images)|)];
      match Gate(images)
      case Pending => Run(Suspended, staged)
      case ImageFailed => Run(Failed(AssetLoadFailure), staged + [ErrorLogged(AssetLoadFailure)])
      case Ready =>
        var options := Options(BaseName(resumed));
        match render
        case RenderFails =>
          Run(Failed(RenderFailure), staged + [Rendered(options), ErrorLogged(RenderFailure)])
        case RenderSucceeds =>
          Run(Saved(options.filename), staged + [Rendered(options), FileOffered(options.filename), StagingRemoved])
  }

  class PdfMulti {
    /** `_htmlContent`: `None` until an `htmlInput` parameter has been seen. */
    var htmlContent: Option<string>
    /** The markup assigned to the preview's `innerHTML`: `None` before `init` creates the preview. */
    var preview: Option<string>

    /** The preview shows exactly the stored content. */
    predicate Mirrors()
      reads this
    {
      preview == Some(CurrentMarkup(htmlContent))
    }

    /** A control before `init`: no preview and no content. */
    predicate Fresh()
      reads this
    {
      preview.None? && htmlContent.None?
    }

    constructor ()
      ensures Fresh()
    {
      htmlContent := None;
      preview := None;
    }

    /**
     * `init`: creates an empty preview, then takes the `htmlInput` parameter when it is
     * present (`param` is `None` for a missing parameter object, `Some(None)` for a null `raw`).
     */
    method Init(param: Option<Option<string>>)
      requires Fresh()
      modifies this
      ensures htmlContent == if param.Some? then Some(param.value.GetOr("")) else None
      ensures Mirrors()
    {
      preview := Some("");
      if param.Some? {
        htmlContent := Some(param.value.GetOr(""));
        preview := Some(htmlContent.value);
      }
    }

    /** `updateView`: takes the `htmlInput` parameter only when it is present. */
    method UpdateView(param: Option<Option<string>>)
      requires preview.Some?
      modifies this
      ensures param.Some? ==> htmlContent == Some(param.value.GetOr("")) && preview == htmlContent
      ensures param.None? ==> htmlContent == old(htmlContent) && preview == old(preview)
      ensures old(Mirrors()) ==> Mirrors()
    {
      if param.Some? {
        htmlContent := Some(param.value.GetOr(""));
        preview := Some(htmlContent.value);
      }
    }

    /**
     * `convertToPDF`, one run of it: `images` is what the staged copy's `<img>` elements do,
     * `render` how the renderer settles, and `update` the `htmlInput` parameter of an
     * `updateView` that runs while the images are awaited (`None` when there is none). A run
     * on empty content returns before any await, so nothing can interleave with it; nor can
     * anything when no image waits for an event, since the wait then resumes in a microtask.
     */
    method ConvertToPdf(images: seq<ImageState>, render: RenderOutcome, update: Option<Option<string>>)
      returns (run: Run)
      requires preview.Some?
      requires update.Some? ==> Registered(images) != []
      modifies this
      ensures run == Convert(old(htmlContent), CurrentMarkup(htmlContent), images, render)
      ensures htmlContent == if CurrentMarkup(old(htmlContent)) != "" && update.Some?
                             then Some(update.value.GetOr("")) else old(htmlContent)
      ensures preview == if CurrentMarkup(old(htmlContent)) != "" && update.Some?
                         then htmlContent else old(preview)
    {
      var html := CurrentMarkup(htmlContent);
      if html == "" {
        return Run(Aborted, []);
      }
      var effects := [Staged(html), HandlersRegistered(|Registered(images)|)];
      UpdateView(update);
      var gate := Gate(images);
      if gate == Pending {
        return Run(Suspended, effects);
      }
      if gate == ImageFailed {
        return Run(Failed(AssetLoadFailure), effects + [ErrorLogged(AssetLoadFailure)]);
      }
      var options := Options(BaseName(CurrentMarkup(htmlContent)));
      if render == RenderFails {
        return Run(Failed(RenderFailure), effects + [Rendered(options), ErrorLogged(RenderFailure)]);
      }
      effects := effects + [Rendered(options), FileOffered(options.filename), StagingRemoved];
      run := Run(Saved(options.filename), effects);
    }
  }

  /**
   * The temporary container is removed exactly when the file was saved, once, as the last
   * step, right after the file is offered.
   */
  lemma RemovedOnlyAfterSave(content: Option<string>, resumed: string, images: seq<ImageState>, render: RenderOutcome)
    ensures var r := Convert(content, resumed, images, render);
      && (StagingRemoved in r.effects <==> r.outcome.Saved?)
      && (r.outcome.Saved? ==>
            && |r.effects| >= 2
            && r.effects[|r.effects| - 1] == StagingRemoved
            && r.effects[|r.effects| - 2] == FileOffered(r.outcome.fileName)
            && StagingRemoved !in r.effects[..|r.effects| - 1])
  {
  }

  /**
   * A failure is logged once, as the last effect, and no file is offered; an error is logged
   * only by a failed run.
   */
  lemma FailureIsCaughtAndLogged(content: Option<string>, resumed: string, images: seq<ImageState>, render: RenderOutcome)
    ensures var r := Convert(content, resumed, images, render);
      r.outcome.Failed? ==> && |r.effects| >= 1
                            && r.effects[|r.effects| - 1] == ErrorLogged(r.outcome.reason)
                            && (forall i :: 0 <= i < |r.effects| - 1 ==> !r.effects[i].ErrorLogged?)
                            && (forall e :: e in r.effects && e.FileOffered? ==> false)
                            && StagingRemoved !in r.effects
    ensures var r := Convert(content, resumed, images, render);
      (exists e :: e in r.effects && e.ErrorLogged?) ==> r.outcome.Failed?
  {
  }

  /**
   * Nothing is rendered and no file is offered before the image wait is fulfilled: a run
   * that renders had every image complete or loaded, and a run whose wait fails or never
   * ends renders nothing.
   */
  lemma RendersOnlyAfterImagesReady(content: Option<string>, resumed: string, images: seq<ImageState>, render: RenderOutcome)
    ensures var r := Convert(content, resumed, images, render);
      (exists e :: e in r.effects && (e.Rendered? || e.FileOffered?)) <==>
        CurrentMarkup(content) != "" && Gate(images) == Ready
  {
    var r := Convert(content, resumed, images, render);
    if CurrentMarkup(content) != "" && Gate(images) == Ready {
      assert r.effects[2] in r.effects;
    }
  }

  /**
   * A saved file is named after the first title capture of the content as it stands when the
   * image wait ends, or `document`, plus `.pdf`.
   */
  lemma SavedFileName(content: Option<string>, resumed: string, images: seq<ImageState>, render: RenderOutcome)
    ensures var r := Convert(content, resumed, images, render);
      r.outcome.Saved? ==> && (Exec(resumed).None? ==> r.outcome.fileName == "document.pdf")
                           && (Exec(resumed).Some? ==> r.outcome.fileName == Exec(resumed).value.capture + ".pdf")
  {
    FileNameFromContent(resumed);
  }

  /**
   * Without an `updateView` during the wait, the file is named after the very content that
   * was staged and rendered.
   */
  lemma UndisturbedRunNamesStagedContent(content: Option<string>, images: seq<ImageState>, render: RenderOutcome)
    ensures var r := Convert(content, CurrentMarkup(content), images, render);
      r.outcome.Saved? ==> r.effects[0] == Staged(CurrentMarkup(content))
                           && r.outcome.fileName == Options(BaseName(r.effects[0].markup)).filename
  {
  }

  /**
   * Content cleared by an `updateView` while an image loads: the staged copy of the old
   * content is still rendered and saved, but under the fallback name `document.pdf`, whatever
   * its title.
   */
  lemma ClearedDuringWait(content: Option<string>, images: seq<ImageState>)
    requires CurrentMarkup(content) != "" && Loads in images
    requires forall i :: 0 <= i < |images| ==> images[i] in {Complete, Loads}
    ensures var r := Convert(content, "", images, RenderSucceeds);
      r.outcome == Saved("document.pdf") && r.effects[0] == Staged(CurrentMarkup(content))
  {
    NothingMatchesEmpty();
    assert Errors !in images && NeverSettles !in images by {
      assert forall x :: x in images ==> x in {Complete, Loads};
    }
  }

  /** The empty content holds no title. */
  lemma NothingMatchesEmpty()
    ensures BaseName("") == DefaultName
  {
    forall p: nat, k: nat
      ensures !MatchAt("", p, k)
    {
    }
  }

  /**
   * The options handed to the renderer are the same for any two runs except for the
   * file name: no other field depends on the content.
   */
  lemma RenderOptionsIndependentOfContent(
    c1: Option<string>, r1: string, i1: seq<ImageState>, c2: Option<string>, r2: string, i2: seq<ImageState>,
    render1: RenderOutcome, render2: RenderOutcome)
    requires CurrentMarkup(c1) != "" && Gate(i1) == Ready
    requires CurrentMarkup(c2) != "" && Gate(i2) == Ready
    ensures var o1 := Convert(c1, r1, i1, render1).effects[2].options;
            var o2 := Convert(c2, r2, i2, render2).effects[2].options;
            o1.(filename := o2.filename) == o2
  {
    OptionsDifferOnlyInFileName(BaseName(r1), BaseName(r2));
  }

  /** Content without images, or with only complete ones, never waits and never fails on images. */
  lemma CompleteImagesNeverWait(content: Option<string>, resumed: string, images: seq<ImageState>, render: RenderOutcome)
    requires CurrentMarkup(content) != ""
    requires forall i :: 0 <= i < |images| ==> images[i] == Complete
    ensures Convert(content, resumed, images, render).effects[1] == HandlersRegistered(0)
    ensures Convert(content, resumed, images, render).outcome in
              {Saved(Options(BaseName(resumed)).filename), Failed(RenderFailure)}
  {
    OnlyCompleteImagesAreReady(images);
  }
}
