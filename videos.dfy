/**
 * The video side of the backend: the videos collection and the handlers of
 * the video controller that change it — publish, update, delete — together
 * with `getVideoById`, which also records the view in the caller's history.
 */
module Videos {
  import opened Wrappers
  import opened Schema
  import opened Text
  import opened Media
  import opened History
  import opened Accounts

  /**
   * The checks `publishAVideo` makes before it calls the media store, in
   * order. `multipart` says the request was a multipart form, so the upload
   * middleware set `req.files`; reading the first file of a field the form
   * did not carry then throws.
   */
  function PublishPrecheck(
    ownerFound: bool, multipart: bool, title: Option<string>, description: Option<string>,
    videoFilePath: Option<string>, thumbnailPath: Option<string>): (r: Option<ErrorKind>)
    ensures r.None? <==> ownerFound && !TrimsToEmpty(title) && !TrimsToEmpty(description)
                         && Truthy(videoFilePath) && Truthy(thumbnailPath)
    ensures !ownerFound ==> r == Some(NotFound)
    ensures ownerFound && (TrimsToEmpty(title) || TrimsToEmpty(description)) ==> r == Some(BadRequest)
    ensures r == Some(ServerError) <==>
      && ownerFound && !TrimsToEmpty(title) && !TrimsToEmpty(description)
      && multipart && (videoFilePath.None? || thumbnailPath.None?)
    ensures r.Some? ==> r.value in {NotFound, BadRequest, ServerError}
  {
    if !ownerFound then Some(NotFound)
    else if TrimsToEmpty(title) || TrimsToEmpty(description) then Some(BadRequest)
    // `req.files?.videoFile[0]` or `req.files?.thumbnail[0]` on a field the form did not carry.
    else if multipart && (videoFilePath.None? || thumbnailPath.None?) then Some(ServerError)
    else if !Truthy(videoFilePath) || !Truthy(thumbnailPath) then Some(BadRequest)
    else None
  }

  /** `updateVideo`'s `$set`: title and description when sent, and the thumbnail URL chosen. */
  function EditVideo(v: Video, title: Option<string>, description: Option<string>, thumbnail: Url): Video {
    v.(title := title.GetOr(v.title), description := description.GetOr(v.description), thumbnail := thumbnail)
  }

  /**
   * What `publishAVideo` answers once its checks passed: a failed upload
   * throws, and so does a missing duration or text field, so each is a
   * server error; otherwise the video is created under the next free id.
   * The 401 for a missing upload result is never reached, since a failed
   * upload has already ended the request.
   */
  function CreateOutcome(
    nextId: VideoId, videoFileAnswer: Option<Asset>, thumbnailAnswer: Option<Asset>,
    title: Option<string>, description: Option<string>): (r: Result<VideoId>)
    ensures r.Success? <==>
      videoFileAnswer.Some? && thumbnailAnswer.Some? && videoFileAnswer.value.duration.Some? && title.Some? && description.Some?
    ensures r.Success? ==> r.value == nextId
    ensures r.Failure? ==> r.error == ServerError
  {
    if videoFileAnswer.None? || thumbnailAnswer.None? then Failure(ServerError)
    else if videoFileAnswer.value.duration.None? || title.None? || description.None? then Failure(ServerError)
    else Success(nextId)
  }

  class Catalog {
    var videos: map<VideoId, Video>
    var nextId: VideoId

    /** Every video is stored under its own id, and ids are handed out in increasing order. */
    ghost predicate Valid()
      reads this
    {
      forall id | id in videos :: id < nextId && videos[id].id == id
    }

    constructor ()
      ensures Valid() && videos == map[]
    {
      videos := map[];
      nextId := 0;
    }

    /**
     * `publishAVideo`: after the owner, text and file checks, the video file
     * is uploaded, then the thumbnail unless the first upload failed; a
     * record is created only when both uploads produced a result.
     */
    method Publish(
      users: UserCollection, owner: UserId, multipart: bool, title: Option<string>, description: Option<string>,
      videoFilePath: Option<string>, thumbnailPath: Option<string>,
      media: MediaStore, videoFileAnswer: Option<Asset>, thumbnailAnswer: Option<Asset>)
      returns (r: Result<VideoId>)
      requires Valid()
      modifies this, media
      ensures Valid()
      ensures PublishPrecheck(owner in users.users, multipart, title, description, videoFilePath, thumbnailPath).Some? ==>
        && r == Failure(PublishPrecheck(owner in users.users, multipart, title, description, videoFilePath, thumbnailPath).value)
        && videos == old(videos) && media.log == old(media.log)
      ensures PublishPrecheck(owner in users.users, multipart, title, description, videoFilePath, thumbnailPath).None? ==>
        && media.log == old(media.log) + [Uploaded(videoFilePath.value, videoFileAnswer)]
                        + (if videoFileAnswer.Some? then [Uploaded(thumbnailPath.value, thumbnailAnswer)] else [])
        && r == CreateOutcome(old(nextId), videoFileAnswer, thumbnailAnswer, title, description)
        && (r.Success? ==> r.value !in old(videos))
        && videos == if r.Success? then old(videos)[r.value := Video(
             r.value, videoFileAnswer.value.url, thumbnailAnswer.value.url, title.value, description.value,
             videoFileAnswer.value.duration.value, owner, true)] else old(videos)
    {
      var precheck := PublishPrecheck(owner in users.users, multipart, title, description, videoFilePath, thumbnailPath);
      if precheck.Some? {
        return Failure(precheck.value);
      }
      r := UploadAndCreate(owner, title, description, videoFilePath.value, thumbnailPath.value, media, videoFileAnswer, thumbnailAnswer);
    }

    /** The second half of `publishAVideo`: the two uploads, each ending the request when it fails, and the new record. */
    method UploadAndCreate(
      owner: UserId, title: Option<string>, description: Option<string>,
      videoFilePath: string, thumbnailPath: string,
      media: MediaStore, videoFileAnswer: Option<Asset>, thumbnailAnswer: Option<Asset>)
      returns (r: Result<VideoId>)
      requires Valid() && videoFilePath != "" && thumbnailPath != ""
      modifies this, media
      ensures Valid()
      ensures media.log == old(media.log) + [Uploaded(videoFilePath, videoFileAnswer)]
                           + (if videoFileAnswer.Some? then [Uploaded(thumbnailPath, thumbnailAnswer)] else [])
      ensures r == CreateOutcome(old(nextId), videoFileAnswer, thumbnailAnswer, title, description)
      ensures r.Success? ==> r.value !in old(videos)
      ensures videos == if r.Success? then old(videos)[r.value := Video(
             r.value, videoFileAnswer.value.url, thumbnailAnswer.value.url, title.value, description.value,
             videoFileAnswer.value.duration.value, owner, true)] else old(videos)
    {
      var uploads := media.UploadBoth(videoFilePath, videoFileAnswer, Some(thumbnailPath), thumbnailAnswer);
      if uploads.Failure? {
        return Failure(uploads.error);
      }
      // Both uploads answered with a response, so the
      // `!videoFile || !thumbnail` check (401) cannot reject here.
      var (file, thumbnail) := uploads.value;
      if file.duration.None? || title.None? || description.None? {
        // `duration.toFixed(2)` on a missing duration, or a document the store refuses.
        return Failure(ServerError);
      }
      var id := nextId;
      videos := videos[id := Video(
        id, file.url, thumbnail.value.url, title.value, description.value,
        file.duration.value, owner, true)];
      nextId := nextId + 1;
      r := Success(id);
    }

    /**
     * `updateVideo`: the old thumbnail stays unless a new file is given; when
     * one is, the old URL is released only after the new upload returned a URL.
     */
    method Update(
      videoId: VideoId, title: Option<string>, description: Option<string>,
      thumbnailPath: Option<string>, media: MediaStore, thumbnailAnswer: Option<Asset>)
      returns (r: Result<Video>)
      requires Valid()
      modifies this, media
      ensures Valid() && nextId == old(nextId)
      ensures videoId !in old(videos) ==>
        r == Failure(ServerError) && videos == old(videos) && media.log == old(media.log)
      ensures videoId in old(videos) && !Truthy(thumbnailPath) ==>
        var v := EditVideo(old(videos)[videoId], title, description, old(videos)[videoId].thumbnail);
        r == Success(v) && videos == old(videos)[videoId := v] && media.log == old(media.log)
      ensures videoId in old(videos) && Truthy(thumbnailPath) && thumbnailAnswer.None? ==>
        && r == Failure(ServerError) && videos == old(videos)
        && media.log == old(media.log) + [Uploaded(thumbnailPath.value, thumbnailAnswer)]
      ensures videoId in old(videos) && Truthy(thumbnailPath) && thumbnailAnswer.Some? && thumbnailAnswer.value.url == "" ==>
        && r == Failure(BadRequest) && videos == old(videos)
        && media.log == old(media.log) + [Uploaded(thumbnailPath.value, thumbnailAnswer)]
      ensures videoId in old(videos) && Truthy(thumbnailPath) && thumbnailAnswer.Some? && thumbnailAnswer.value.url != "" ==>
        var v := EditVideo(old(videos)[videoId], title, description, thumbnailAnswer.value.url);
        && r == Success(v) && videos == old(videos)[videoId := v]
        && media.log == old(media.log) + [Uploaded(thumbnailPath.value, thumbnailAnswer), Released(old(videos)[videoId].thumbnail)]
    {
      if videoId !in videos {
        // `video.thumbnail` on a null document.
        return Failure(ServerError);
      }
      var oldThumbnailUrl := videos[videoId].thumbnail;
      var newThumbnailUrl;
      if Truthy(thumbnailPath) {
        var thumbnail := media.Upload(thumbnailPath, thumbnailAnswer);
        if thumbnail.Failure? {
          return Failure(thumbnail.error);
        }
        if thumbnail.value.value.url == "" {
          return Failure(BadRequest);
        }
        newThumbnailUrl := thumbnail.value.value.url;
        media.Release(oldThumbnailUrl);
      } else {
        newThumbnailUrl := oldThumbnailUrl;
      }
      var v := EditVideo(videos[videoId], title, description, newThumbnailUrl);
      videos := videos[videoId := v];
      r := Success(v);
    }

    /** `deleteVideo`: removes the record, then releases its file and its thumbnail. */
    method Delete(videoId: VideoId, media: MediaStore) returns (r: Result<Video>)
      requires Valid()
      modifies this, media
      ensures Valid() && nextId == old(nextId)
      ensures videoId !in old(videos) ==>
        r == Failure(ServerError) && videos == old(videos) && media.log == old(media.log)
      ensures videoId in old(videos) ==>
        && r == Success(old(videos)[videoId])
        && videos == old(videos) - {videoId}
        && media.log == old(media.log) + [Released(r.value.videoFile), Released(r.value.thumbnail)]
    {
      if videoId !in videos {
        // `video.videoFile` on a null document.
        return Failure(ServerError);
      }
      var v := videos[videoId];
      videos := videos - {videoId};
      media.Release(v.videoFile);
      media.Release(v.thumbnail);
      r := Success(v);
    }

    /**
     * `getVideoById`: an unknown video is not found and touches nothing;
     * otherwise the view is recorded in the caller's history, which keeps at
     * most one entry per video.
     */
    method GetVideoById(users: UserCollection, userId: UserId, videoId: VideoId, now: Timestamp)
      returns (r: Result<Video>)
      requires Valid() && users.Valid()
      modifies users.users.Values
      ensures videoId !in videos ==> r == Failure(NotFound) && users.Records() == old(users.Records())
      ensures videoId in videos && userId !in users.users ==>
        r == Failure(ServerError) && users.Records() == old(users.Records())
      ensures videoId in videos && userId in users.users ==>
        var before := old(users.Records())[userId];
        && r == Success(videos[videoId])
        && users.Records() == old(users.Records())[userId := before.(watchHistory := Upsert(before.watchHistory, videos[videoId], now))]
        && (UniqueByVideo(before.watchHistory) ==> UniqueByVideo(users.Records()[userId].watchHistory))
    {
      if videoId !in videos {
        return Failure(NotFound);
      }
      var video := videos[videoId];
      if userId !in users.users {
        // `user.watchHistory` on a null document.
        return Failure(ServerError);
      }
      var user := users.users[userId];
      if UniqueByVideo(user.watchHistory) {
        ViewKeepsUnique(user.watchHistory, video, now);
      }
      user.RecordView(video, now);
      r := Success(video);
    }
  }
}
