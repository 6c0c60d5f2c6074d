/** Identifiers and the video document shared by both controllers. */
module Schema {

  type UserId = nat
  type VideoId = nat
  type Url = string
  type Token = string
  /** A point in time, standing in for `new Date()`. */
  type Timestamp = int

  /** A video document: its two media URLs, its text, its length in seconds and its owner. */
  datatype Video = Video(
    id: VideoId,
    videoFile: Url,
    thumbnail: Url,
    title: string,
    description: string,
    duration: real,
    owner: UserId,
    isPublished: bool)

  /** A subscription document: `subscriber` follows `channel`. */
  datatype Subscription = Subscription(subscriber: UserId, channel: UserId)
}
