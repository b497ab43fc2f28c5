/**
 * The wait for the staged copy's images: each `<img>` becomes a promise (resolved at once
 * when the image is already `complete`, otherwise settled by its `onload` or `onerror`),
 * and `Promise.all` over them is awaited.
 */
module AssetGate {

  /** What an `<img>` of the staged copy does: already complete, or later loads, errors, or never fires. */
  datatype ImageState = Complete | Loads | Errors | NeverSettles

  /** The eventual state of one image's promise. */
  datatype Settlement = Resolved | Rejected | Unsettled

  /** The eventual state of `Promise.all`: fulfilled, rejected, or pending forever. */
  datatype GateOutcome = Ready | ImageFailed | Pending

  /** The promise built for one image: `complete` resolves at once, else `onload`/`onerror` decide. */
  function ImagePromise(img: ImageState): (st: Settlement)
    ensures img.Complete? ==> st == Resolved
    ensures st == Rejected <==> img == Errors
    ensures st == Unsettled <==> img == NeverSettles
  {
    match img
    case Complete => Resolved
    case Loads => Resolved
    case Errors => Rejected
    case NeverSettles => Unsettled
  }

  /** Whether the image gets `onload`/`onerror` handlers: only the ones not yet complete do. */
  predicate RegistersHandlers(img: ImageState) {
    !img.Complete?
  }

  /** `Array.from(images).map(...)`: one promise per image, in document order. */
  function Promises(imgs: seq<ImageState>): (ps: seq<Settlement>)
    ensures |ps| == |imgs|
    ensures forall i :: 0 <= i < |imgs| ==> ps[i] == ImagePromise(imgs[i])
  {
    seq(|imgs|, i requires 0 <= i < |imgs| => ImagePromise(imgs[i]))
  }

  /**
   * `Promise.all`: fulfilled when every promise is, rejected as soon as any one is
   * (whatever the others do), pending forever otherwise.
   */
  function All(ps: seq<Settlement>): (g: GateOutcome)
    ensures g == Ready <==> forall i :: 0 <= i < |ps| ==> ps[i] == Resolved
    ensures g == ImageFailed <==> Rejected in ps
    ensures g == Pending <==> Rejected !in ps && Unsettled in ps
  {
    if ps == [] then Ready
    else
      var rest := All(ps[1..]);
      assert ps == [ps[0]] + ps[1..];
      match ps[0]
      case Rejected => ImageFailed
      case Resolved => rest
      case Unsettled => if rest == ImageFailed then ImageFailed else Pending
  }

  /** An image's promise rejects or stays pending exactly when the image errors or never fires. */
  lemma PromisesReflectImages(imgs: seq<ImageState>)
    ensures Rejected in Promises(imgs) <==> Errors in imgs
    ensures Unsettled in Promises(imgs) <==> NeverSettles in imgs
  {
    var ps := Promises(imgs);
    if Errors in imgs {
      var i :| 0 <= i < |imgs| && imgs[i] == Errors;
      assert ps[i] == Rejected;
    }
    if NeverSettles in imgs {
      var i :| 0 <= i < |imgs| && imgs[i] == NeverSettles;
      assert ps[i] == Unsettled;
    }
  }

  /**
   * `await Promise.all(imagePromises)` over the images found in the staged copy: ready when
   * every image is complete or loads, failed when any image errors, pending otherwise.
   */
  function Gate(imgs: seq<ImageState>): (g: GateOutcome)
    ensures g == Ready <==> forall i :: 0 <= i < |imgs| ==> imgs[i] in {Complete, Loads}
    ensures g == ImageFailed <==> Errors in imgs
    ensures g == Pending <==> Errors !in imgs && NeverSettles in imgs
  {
    PromisesReflectImages(imgs);
    All(Promises(imgs))
  }

  /**
   * The images that get handlers registered, in document order: each image that is not
   * complete, as often as it occurs, and so one handler pair per such image.
   */
  function Registered(imgs: seq<ImageState>): (rs: seq<ImageState>)
    ensures forall x :: multiset(rs)[x] == if RegistersHandlers(x) then multiset(imgs)[x] else 0
    ensures |rs| == |imgs| - multiset(imgs)[Complete]
  {
    if imgs == [] then []
    else
      assert imgs == [imgs[0]] + imgs[1..];
      (if RegistersHandlers(imgs[0]) then [imgs[0]] else []) + Registered(imgs[1..])
  }

  /** An image is registered exactly when it occurs and is not complete. */
  lemma RegisteredMembers(imgs: seq<ImageState>)
    ensures forall x :: x in Registered(imgs) <==> x in imgs && RegistersHandlers(x)
  {
    forall x
      ensures x in Registered(imgs) <==> x in imgs && RegistersHandlers(x)
    {
      assert x in Registered(imgs) <==> multiset(Registered(imgs))[x] > 0;
      assert x in imgs <==> multiset(imgs)[x] > 0;
    }
  }

  /**
   * Already-complete images never hold the gate up: it settles exactly as it would over the
   * images that registered handlers.
   */
  lemma GateIgnoresCompleteImages(imgs: seq<ImageState>)
    ensures Gate(imgs) == Gate(Registered(imgs))
  {
    RegisteredMembers(imgs);
    assert forall i :: 0 <= i < |imgs| ==> imgs[i] in imgs;
    assert forall i :: 0 <= i < |Registered(imgs)| ==> Registered(imgs)[i] in Registered(imgs);
  }

  /** With no images, or only complete ones, no handler is registered and the gate is ready. */
  lemma OnlyCompleteImagesAreReady(imgs: seq<ImageState>)
    requires forall i :: 0 <= i < |imgs| ==> imgs[i] == Complete
    ensures Registered(imgs) == []
    ensures Gate(imgs) == Ready
  {
    assert multiset(imgs)[Complete] == |imgs| by {
      assert forall x :: x in multiset(imgs) ==> x == Complete;
      assert imgs == seq(|imgs|, i => Complete);
      AllCompleteCount(|imgs|);
    }
  }

  /** `n` complete images are `n` occurrences of `Complete`. */
  lemma {:induction false} AllCompleteCount(n: nat)
    ensures multiset(seq(n, i => Complete))[Complete] == n
  {
    if n > 0 {
      AllCompleteCount(n - 1);
      assert seq(n, i => Complete) == seq(n - 1, i => Complete) + [Complete];
    }
  }

  /** Fail-fast: one erroring image fails the gate, even beside images that never settle. */
  lemma AnyErrorFails(imgs: seq<ImageState>, i: nat)
    requires i < |imgs| && imgs[i] == Errors
    ensures Gate(imgs) == ImageFailed
  {
    assert imgs[i] in imgs;
  }

  /** Splitting the images: the gate over a concatenation combines the two gates, failure first. */
  lemma GateOfConcat(a: seq<ImageState>, b: seq<ImageState>)
    ensures Gate(a + b) == if Gate(a) == ImageFailed || Gate(b) == ImageFailed then ImageFailed
                           else if Gate(a) == Pending || Gate(b) == Pending then Pending
                           else Ready
  {
    if Gate(a) == Ready && Gate(b) == Ready {
      forall i | 0 <= i < |a + b|
        ensures (a + b)[i] in {Complete, Loads}
      {
        if i < |a| { assert (a + b)[i] == a[i]; } else { assert (a + b)[i] == b[i - |a|]; }
      }
    }
  }
}
