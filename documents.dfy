/**
 * The decoded responses the stages read, reduced to the fields they look at,
 * and the remote services as functions from a request URL to a response.
 */
module Documents {
  import opened Basics

  /** One row of resultSets[0].rowSet: field 0 is the game id, 1 the event id, 2 the event type, 13 the player. */
  type Row = seq<Value>

  /** The filter dict: filter['player'] and filter['type']. */
  datatype PlayFilter = PlayFilter(player: set<Value>, eventType: set<Value>)

  /** A decoded play-by-play response; None when resultSets[0].rowSet cannot be reached. */
  datatype PlayByPlayDoc = PlayByPlayDoc(rowSet: Option<seq<Row>>)

  /** One element of videoUrls; uuid is None when the element has no 'uuid' key. */
  datatype VideoUrl = VideoUrl(uuid: Option<Value>)

  /** A decoded video-event response; None when resultSets.Meta.videoUrls cannot be reached. */
  datatype VideoEventDoc = VideoEventDoc(videoUrls: Option<seq<VideoUrl>>)

  /** An element under video.files; text is its '#text' content, if it has one. */
  datatype FileItem = FileItem(text: Option<string>)

  /** One key of video.files with the list of elements under it. */
  datatype FileGroup = FileGroup(name: string, items: seq<FileItem>)

  /** A decoded manifest: the empty dict, or a document whose video.files may be missing. */
  datatype ManifestDoc = EmptyManifest | Manifest(files: Option<seq<FileGroup>>)

  /** What a GET followed by decoding yields: a document or the error the client or decoder raised. */
  datatype Fetched<+T> = Fetched(doc: T) | FetchFailed(error: Error)

  /**
   * A streamed download: the connection fails before the file is opened, or the
   * bytes received arrive and the stream ends normally or breaks with an error.
   */
  datatype Download = ConnectFailed(error: Error) | Streamed(data: seq<byte>, broken: Option<Error>)

  /**
   * The remote services, one per endpoint family, as answers to each URL. Each is
   * a function of the URL alone, so one URL gets the same answer for the whole run.
   */
  datatype Server = Server(
    playByPlay: string -> Fetched<PlayByPlayDoc>,
    videoEvent: string -> Fetched<VideoEventDoc>,
    manifest: string -> Fetched<ManifestDoc>,
    video: string -> Download)
}
