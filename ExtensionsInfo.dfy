/** Classification of files by extension: audio files, text files, and the
    files useful to the tagger (either kind). */
module ExtensionsInfo {
  import opened Wrappers
  import opened Text
  import opened Paths

  const AudioExtensions: set<string> := {".mp3", ".ape", ".flac", ".mpc", ".ogg", ".wav"}

  const TextExtensions: set<string> := {".txt", ".log", ".cue"}

  const UsefulExtensions: set<string> := AudioExtensions + TextExtensions

  /** Whether the lower-cased extension of `filePath` is one of `extensions`. */
  predicate IsOneOfExtensions(extensions: set<string>, filePath: string)
  {
    ToLower(GetExtension(filePath)) in extensions
  }

  predicate IsAudio(filePath: string)
  {
    IsOneOfExtensions(AudioExtensions, filePath)
  }

  predicate IsText(filePath: string)
  {
    IsOneOfExtensions(TextExtensions, filePath)
  }

  predicate IsUseful(filePath: string)
  {
    IsOneOfExtensions(UsefulExtensions, filePath)
  }

  /** A file is useful exactly when it is an audio file or a text file. */
  lemma UsefulIsAudioOrText(filePath: string)
    ensures IsUseful(filePath) <==> IsAudio(filePath) || IsText(filePath)
  {
  }

  /** No file is both an audio file and a text file. */
  lemma AudioAndTextAreDisjoint(filePath: string)
    ensures !(IsAudio(filePath) && IsText(filePath))
  {
  }

  /** Two paths that differ only in the case of their letters are classified alike. */
  lemma ClassificationIgnoresCase(p: string, q: string)
    requires ToLower(p) == ToLower(q)
    ensures IsAudio(p) == IsAudio(q) && IsText(p) == IsText(q) && IsUseful(p) == IsUseful(q)
  {
    ExtensionOfLower(p);
    ExtensionOfLower(q);
    LowerIdempotent(GetExtension(p));
    LowerIdempotent(GetExtension(q));
  }

  lemma LowerIdempotent(s: string)
    ensures ToLower(ToLower(s)) == ToLower(s)
  {
  }

  /** Extensions are compared case-insensitively: a `.FLAC` file is an audio file. */
  lemma UpperCaseFlacIsAudio(p: string)
    requires GetExtension(p) == ".FLAC"
    ensures IsAudio(p) && !IsText(p) && IsUseful(p)
  {
    assert ToLower(".FLAC") == ".flac";
  }

  /** A file whose name has no extension is of no kind. */
  lemma NoExtensionIsOfNoKind(filePath: string)
    requires GetExtension(filePath) == ""
    ensures !IsAudio(filePath) && !IsText(filePath) && !IsUseful(filePath)
  {
  }
}
