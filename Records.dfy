/** The plain records passed between the extractor, the matcher and the
    output stage. They carry no behaviour. */
module Records {
  import opened Wrappers

  /** The two kinds of input file. */
  datatype InputFileType = Text | Audio

  /** One file of an album directory, with the content of a text file. */
  datatype InputFile = InputFile(path: string, fileType: InputFileType, content: Option<string>)

  /** An album directory: its local path and its useful files. */
  datatype InputRoot = InputRoot(localPath: string, files: seq<InputFile>)

  /** What the file name of one audio file says about its track. */
  datatype TrackInfo = TrackInfo(
    fileName: string,
    trackNumber: Option<int>,
    trackTitle: string,
    meaningfulTrackTitleTokens: string)

  /** What the file names of one album directory say about it. */
  datatype TrackDirInfo = TrackDirInfo(
    path: string,
    commonPrefix: Option<string>,
    tracks: seq<TrackInfo>)

  /** One audio file with the number and title the matcher settled on. */
  datatype MatchedTrackInfo = MatchedTrackInfo(
    path: string,
    trackNumber: int,
    title: string)

  /** The matcher's answer for one directory. */
  datatype OutputRoot = OutputRoot(
    album: string,
    performers: seq<string>,
    tracks: seq<MatchedTrackInfo>)
}
