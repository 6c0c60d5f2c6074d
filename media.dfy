/**
 * The media store (Cloudinary behind `uploadOnCloudinary` and
 * `deleteFromCloudinary`), reduced to a log of the calls the controllers
 * make. What the remote service answers to an upload is not decided here:
 * every upload takes that answer as a parameter.
 */
module Media {
  import opened Wrappers
  import opened Schema
  import opened Text

  /** What a successful upload returns: the durable URL and, for audio or video, the duration. */
  datatype Asset = Asset(url: Url, duration: Option<real>)

  datatype MediaEvent =
    | Uploaded(localPath: string, answer: Option<Asset>)
    | Released(url: Url)

  /** The events one upload call adds: none for a falsy local path, since the helper returns null at once. */
  function UploadCall(localPath: Option<string>, answer: Option<Asset>): seq<MediaEvent> {
    if Truthy(localPath) then [Uploaded(localPath.value, answer)] else []
  }

  class MediaStore {
    var log: seq<MediaEvent>

    constructor ()
      ensures log == []
    {
      log := [];
    }

    /**
     * `uploadOnCloudinary`: null for a falsy path; otherwise the service's
     * answer. A failed upload does not come back as null: the catch block's
     * `fs.unlink` is called without a callback and throws, so the caller's
     * request ends as a server error.
     */
    method Upload(localPath: Option<string>, answer: Option<Asset>) returns (r: Result<Option<Asset>>)
      modifies this
      ensures log == old(log) + UploadCall(localPath, answer)
      ensures r.Failure? <==> Truthy(localPath) && answer.None?
      ensures r.Failure? ==> r.error == ServerError
      ensures r.Success? ==> r.value == if Truthy(localPath) then answer else None
    {
      if Truthy(localPath) {
        log := log + [Uploaded(localPath.value, answer)];
        if answer.None? {
          return Failure(ServerError);
        }
        r := Success(answer);
      } else {
        r := Success(None);
      }
    }

    /**
     * Two uploads one after the other, as a handler awaits them: the second
     * is attempted only when the first did not throw.
     */
    method UploadBoth(firstPath: string, firstAnswer: Option<Asset>, secondPath: Option<string>, secondAnswer: Option<Asset>)
      returns (r: Result<(Asset, Option<Asset>)>)
      requires firstPath != ""
      modifies this
      ensures log == old(log) + [Uploaded(firstPath, firstAnswer)]
                     + (if firstAnswer.Some? then UploadCall(secondPath, secondAnswer) else [])
      ensures r.Failure? <==> firstAnswer.None? || (Truthy(secondPath) && secondAnswer.None?)
      ensures r.Failure? ==> r.error == ServerError
      ensures r.Success? ==> r.value == (firstAnswer.value, if Truthy(secondPath) then secondAnswer else None)
    {
      var first := Upload(Some(firstPath), firstAnswer);
      if first.Failure? {
        return Failure(first.error);
      }
      var second := Upload(secondPath, secondAnswer);
      if second.Failure? {
        return Failure(second.error);
      }
      r := Success((first.value.value, second.value));
    }

    /** `deleteFromCloudinary`: an opaque call, recorded and not otherwise interpreted. */
    method Release(url: Url)
      modifies this
      ensures log == old(log) + [Released(url)]
    {
      log := log + [Released(url)];
    }
  }
}
