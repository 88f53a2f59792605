/** The part of the Discogs database client the matcher uses: a search and a
    release lookup, both given as functions. */
module Discogs {
  import opened Wrappers
  import StringUtils

  /** A string that fits in a .NET string. */
  type NetString = s: string | |s| <= StringUtils.MaxStringLength witness ""

  /** One hit of a database search. */
  datatype SearchResult = SearchResult(id: int, masterId: int, title: string)

  /** One entry of a release's tracklist. */
  datatype Track = Track(position: string, title: NetString)

  /** A release as the database returns it; its tracklist may be missing. */
  datatype ReleaseResponse = ReleaseResponse(
    title: string,
    tracklist: Option<seq<Track>>,
    artists: seq<string>,
    have: int)

  /** A release the matcher works with: its tracklist is present. */
  datatype Release = Release(
    title: string,
    tracklist: seq<Track>,
    artists: seq<string>,
    have: int)

  /** The database: `search` lists the hits for a query, in the database's
      order; `getRelease` fetches a release, or fails (`None`) when the
      database reports an error. */
  datatype Database = Database(
    search: string -> seq<SearchResult>,
    getRelease: int -> Option<ReleaseResponse>)
}
