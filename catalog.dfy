/** The metadata tree the compiler reads (the Go structs Track, Album and
    Metadata, already decoded from JSON) and the WorkItem it produces. */
module Catalog {

  datatype Option<T> = None | Some(value: T)

  /** One track. The six optional fields override the album's value when
      present (a nil pointer in Go is None here). */
  datatype Track = Track(
    renderedFile: string,
    title: string,
    composer: Option<string>,
    artist: Option<string>,
    genre: Option<string>,
    date: Option<string>,
    cover: Option<string>,
    copyright: Option<string>)

  datatype Album = Album(
    title: string,
    composer: string,
    artist: string,
    genre: string,
    date: string,
    cover: string,
    copyright: string,
    tracks: seq<Track>)

  /** The whole configuration file. `parallel` and `albums` are read only by
      the driver, which is not part of this model. */
  datatype Metadata = Metadata(
    ffmpegPath: string,
    inputPath: string,
    outputPath: string,
    outputExtensions: seq<string>,
    parallel: bool,
    albums: seq<Album>)

  /** An ffmpeg invocation: a description and the argument list. */
  datatype WorkItem = WorkItem(task: string, args: seq<string>)

  /** The effective value of a field: the track's override when it has one,
      otherwise the album default. */
  function Override(basic: string, o: Option<string>): (r: string)
    ensures o.Some? ==> r == o.value
    ensures o.None? ==> r == basic
  {
    match o
    case Some(v) => v
    case None => basic
  }
}
