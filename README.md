# Murg matching engine in Dafny

Murg tags an album directory of audio files from the Discogs database. It
reads the directory's file names and looks for the album with queries built
from those names. It then picks the best release it finds and writes the
album title, the performers and, for each file, a track number and a title.
This project models the deterministic core of that process and proves what
it computes. The network is reduced to two functions given as parameters.

- **Extension classifier** (`ExtensionsInfo.dfy`, with `Paths.dfy` for
  `Path.GetExtension`). A file is an audio file, a text file or a useful file
  according to its lower-cased extension.
- **String library** (`StringUtils.dfy`, with `Text.dfy` for the .NET string
  and integer primitives it relies on). It covers:
  - the allowed-symbol list;
  - the canonicity and extravagance scores;
  - the Levenshtein distance, computed by the same row-major relaxation over
    a two-dimensional `Int32` array as the original and proved equal to the
    recursive edit distance;
  - the run tokenizer `GetCharGroupsBy` (a loop proved against a recursive
    definition), with `SplitToTokens` and `ExtractDigitGroups` built on it;
  - the common-token intersection (a loop proved against a set definition);
  - the longest common prefix.
- **Directory info extractor** (`TrackDirInfoExtractor.dfy`, with the
  records in `Records.dfy`). It finds the trimmed common prefix of the file
  names and the common tokens of what remains. For each file it then finds:
  - the track number, from the last match of the pattern `(\d+) ?[-.] ?`,
    which is written as a direct scan;
  - the title;
  - the meaningful tokens.
- **Release matcher** (`Matcher.dfy`, with the database in `Discogs.dfy` and
  the two orders in `Sorting.dfy`). It covers:
  - the queries;
  - the digit consistency of a release title with a query;
  - the conformity filter;
  - fetching the releases of the first query that finds any;
  - the stable descending ranking;
  - the matching of each file to a release track;
  - the album title and the performers.

  `Match` is an imperative method that loops over the queries and the tracks.
  It is proved equal to the function `MatchOutcome`, and the lemmas
  `MatchNone`, `MatchFault` and `MatchOutput` state what that outcome is.

Where the original would throw, the model returns an error value instead:
- the parse of a track number or of a release track position fails
  (`int.Parse`);
- a numbered track has no entry at that index in some release
  (`Tracklist[n - 1]`);
- the best release has an empty tracklist (`First()`).

The database search and release lookup are parameters (`Discogs.Database`).
A lookup that fails with `DiscogsApiException` is a `None` from `getRelease`.

The comment above `FindLongestCommonPrefix` (src/Murg.Backend/StringUtils.cs:122-125)
says the two "Maaya Sakamoto" names have the prefix `"… Single - "`. The
code compares characters up to the first difference, so it also keeps the
digit `0` that both track numbers start with. The model follows the code, and
`StringUtils.MaayaSakamotoPrefix` proves the prefix is `"… Single - 0"`.

## Model

| member | source | states |
|---|---|---|
| ExtensionsInfo.UsefulIsAudioOrText | src/Murg.Backend/Input/ExtensionsInfo.cs:15-16 | a file is useful exactly when it is an audio file or a text file |
| ExtensionsInfo.AudioAndTextAreDisjoint | src/Murg.Backend/Input/ExtensionsInfo.cs:9-13 | no file is both an audio file and a text file |
| ExtensionsInfo.ClassificationIgnoresCase | src/Murg.Backend/Input/ExtensionsInfo.cs:19-20 | two paths equal up to letter case are classified alike by all three tests |
| ExtensionsInfo.UpperCaseFlacIsAudio | src/Murg.Backend/Input/ExtensionsInfo.cs:20 | a path with extension `.FLAC` is audio and useful but not text |
| ExtensionsInfo.NoExtensionIsOfNoKind | src/Murg.Backend/Input/ExtensionsInfo.cs:20 | a path with no extension is neither audio, text nor useful |
| Paths.GetExtension | src/Murg.Backend/Input/ExtensionsInfo.cs:20 | the extension is empty, or a dot followed by at least one character with no other dot and no separator |
| Paths.ExtensionIsLastDotSuffix | src/Murg.Backend/Input/ExtensionsInfo.cs:20 | the extension is a suffix of the file name, so with its shape it starts at the last dot; it is empty exactly when the file name has no dot or ends with one |
| Paths.LastIndexOf | src/Murg.Backend/Input/ExtensionsInfo.cs:20 | absent exactly when the character does not occur; otherwise the position of its last occurrence |
| Paths.ExtensionOfLower | src/Murg.Backend/Input/ExtensionsInfo.cs:20 | the extension of a lower-cased path is the lower-cased extension |
| Paths.GetFileName | src/Murg.Backend/InfoExtraction/TrackDirInfoExtractor.cs:60 | the file name is a suffix of the path and holds no separator |
| Paths.FileNameFollowsSeparator | src/Murg.Backend/InfoExtraction/TrackDirInfoExtractor.cs:60 | the file name is the whole path or starts right after a separator, so it is everything after the last separator |
| Paths.GetFileNameWithoutExtension | src/Murg.Backend/InfoExtraction/TrackDirInfoExtractor.cs:61 | the stem is a prefix of the file name with no separator; the whole name when it has no dot, and otherwise the part before its last dot |
| Paths.CombineFileName | src/Murg.Backend/Matcher.cs:129 | the file name of a directory combined with a plain name is that name |
| Text.Trim | src/Murg.Backend/InfoExtraction/TrackDirInfoExtractor.cs:49 | the result is the input with only white space removed at both ends, and it neither starts nor ends with white space |
| Text.TrimUnpadded | src/Murg.Backend/InfoExtraction/TrackDirInfoExtractor.cs:29 | trimming text that has no white space at either end leaves it unchanged |
| Text.JoinSplit | src/Murg.Backend/StringUtils.cs:27 | joining the words of a split with the separator gives back the text |
| Text.SplitJoin | src/Murg.Backend/Matcher.cs:85-87 | splitting words joined by a separator they lack gives back the words |
| Text.SplitCount | src/Murg.Backend/Matcher.cs:85 | a split has one word more than the text has separators |
| Text.SplitConcat | src/Murg.Backend/StringUtils.cs:27-28 | splitting two texts joined by the separator gives the words of both |
| Text.ParseInt | src/Murg.Backend/Matcher.cs:126 | a parsed value is an `Int32`, and the empty text does not parse |
| Text.ParsePaddedNumber | src/Murg.Backend/Matcher.cs:126 | digits with an optional sign and surrounding white space parse to their signed value, or fail with an overflow outside `Int32` |
| Text.ParseRejectsOtherCharacter | src/Murg.Backend/Matcher.cs:126 | a character that is not white space, a sign or a digit makes the parse fail with a format error |
| Text.ParseRejectsBlank | src/Murg.Backend/Matcher.cs:126 | text of white space only fails with a format error |
| Text.ParseDigits | src/Murg.Backend/InfoExtraction/TrackDirInfoExtractor.cs:28 | a digit run parses to its value when that fits in `Int32` and fails with an overflow otherwise |
| Text.FormatParseRoundTrip | src/Murg.Backend/InfoExtraction/TrackDirInfoExtractor.cs:30 | the `"0"` and `"00"` renderings of an `Int32` value parse back to it |
| Text.FormatTwoDigits | src/Murg.Backend/InfoExtraction/TrackDirInfoExtractor.cs:30 | the `"00"` rendering has at least two digits and denotes the number |
| Text.WrapInt32 | src/Murg.Backend/Matcher.cs:122 | the result is an `Int32` congruent to the input modulo 2^32, and equal to it when it fits |
| StringUtils.GetCommonSymbols | src/Murg.Backend/StringUtils.cs:11-18 | 72 distinct characters: the digits, the English letters of both cases and space . , ! ? ' ( ) [ ] |
| StringUtils.CharValue | src/Murg.Backend/StringUtils.cs:30-44 | each character scores between -100 and 0: 0 exactly for a letter, a digit or a space, -100 for a bad character, -1 for `. , ! ? ( )` and -5 for any other punctuation mark |
| StringUtils.MeasureStringCanonicity | src/Murg.Backend/StringUtils.cs:20-48 | the score is never positive |
| StringUtils.CanonicityZero | src/Murg.Backend/StringUtils.cs:20-48 | the score is 0 exactly when no word is all lower or all upper case and every character is a letter, a digit or a space |
| StringUtils.CanonicityOfSpaceJoin | src/Murg.Backend/StringUtils.cs:27-28 | the score of two texts joined by a space is the sum of their scores |
| StringUtils.CanonicityOfWord | src/Murg.Backend/StringUtils.cs:25-28 | a word scores -1 if all lower case, -3 if all upper case, plus its character penalties |
| StringUtils.CanonicityOfEmpty | src/Murg.Backend/StringUtils.cs:27-28 | the empty text is one empty word that counts as both cases, so it scores -4 |
| StringUtils.CanonicityOfPlainWord | src/Murg.Backend/StringUtils.cs:25-28 | a word of letters and digits pays only the case penalties |
| StringUtils.CanonicityOfShouting | src/Murg.Backend/StringUtils.cs:26-28 | an upper-case word scores -3 |
| StringUtils.CanonicityOfTitleCase | src/Murg.Backend/StringUtils.cs:20-48 | two capitalised words score 0 |
| StringUtils.CanonicityOfPunctuation | src/Murg.Backend/StringUtils.cs:36-44 | a comma costs 1 and a lower-case word costs 1 |
| StringUtils.MeasureStringExtravagance | src/Murg.Backend/StringUtils.cs:50-54 | the count of characters outside the allowed symbols, between 0 and the length, and 0 exactly when all are allowed |
| StringUtils.DistanceBounds | src/Murg.Backend/StringUtils.cs:57-81 | the distance is at least the difference of the lengths and at most the greater length |
| StringUtils.DistanceSymmetric | src/Murg.Backend/StringUtils.cs:57-81 | the distance between prefixes is symmetric |
| StringUtils.DistanceZero | src/Murg.Backend/StringUtils.cs:57-81 | the distance between prefixes is 0 exactly when they are equal |
| StringUtils.EditDistanceProperties | src/Murg.Backend/StringUtils.cs:57-81 | d(a,a) = 0, symmetry, d("",b) = \|b\|, the length bounds, and d = 0 exactly for equal strings |
| StringUtils.RelaxedFinal | src/Murg.Backend/StringUtils.cs:70-78 | a cell whose predecessors are all relaxed holds the edit distance of its prefixes, which is below `int.MaxValue` |
| StringUtils.PushedAll | src/Murg.Backend/StringUtils.cs:75-77 | the three pushes of a cell give the expected table for the next cell |
| StringUtils.Up | src/Murg.Backend/StringUtils.cs:70 | lowering a cell to the minimum of its value and the pushed value keeps the table invariant for the next push |
| StringUtils.RelaxFrom | src/Murg.Backend/StringUtils.cs:72-78 | relaxing one cell moves the table invariant to the next cell; every read cell is finite and every write is inside the array |
| StringUtils.CalculateLevenshteinDistance | src/Murg.Backend/StringUtils.cs:57-81 | the array method returns the unit-cost edit distance |
| StringUtils.CharGroups | src/Murg.Backend/StringUtils.cs:83-104 | the groups are non-empty and every character in them is in the group class |
| StringUtils.GetCharGroupsBy | src/Murg.Backend/StringUtils.cs:83-104 | the loop returns exactly the maximal runs of group characters, in order |
| StringUtils.CharGroupsFlatten | src/Murg.Backend/StringUtils.cs:83-104 | the groups concatenated are the input filtered by the class |
| StringUtils.FirstGroupIsFirstRun | src/Murg.Backend/StringUtils.cs:95-100 | the first group is the first maximal run, and the rest comes from the text after it |
| StringUtils.CharGroupsOfJoin | src/Murg.Backend/StringUtils.cs:83-104 | the groups of group words joined by a non-group separator are those words |
| StringUtils.SplitToTokens | src/Murg.Backend/StringUtils.cs:107-108 | every token is a non-empty run of lower-case letters and digits |
| StringUtils.LowerAll | src/Murg.Backend/StringUtils.cs:108 | each group is lower-cased in place, giving a token |
| StringUtils.TokensOfJoin | src/Murg.Backend/StringUtils.cs:107-108 | the tokens of tokens joined by spaces are those tokens |
| StringUtils.SplitToTokensIdempotent | src/Murg.Backend/StringUtils.cs:107-108 | re-tokenising the tokens joined by spaces gives the same list |
| StringUtils.TokenIsLower | src/Murg.Backend/StringUtils.cs:108 | lower-casing a token leaves it unchanged |
| StringUtils.ExtractDigitGroups | src/Murg.Backend/StringUtils.cs:119-120 | each group is a non-empty run of digits |
| StringUtils.DigitGroupsKeepLeadingZeros | src/Murg.Backend/StringUtils.cs:119-120 | `"Vol. 01 - 2"` gives the groups `"01"` and `"2"`, with the leading zero kept |
| StringUtils.FindCommonTokens | src/Murg.Backend/StringUtils.cs:110-117 | the intersection loop returns the tokens common to every string's token list, and nothing for no strings |
| StringUtils.AgreeingLength | src/Murg.Backend/StringUtils.cs:130-131 | the length of the longest run of equal characters at the front, under the chosen comparison |
| StringUtils.FindLongestCommonPrefix | src/Murg.Backend/StringUtils.cs:126-133 | for a non-empty list: a prefix of the first string that matches every string character by character and cannot be extended |
| StringUtils.LcpOfDivergingStrings | src/Murg.Backend/StringUtils.cs:126-133 | two strings that share a prefix and then differ have exactly that common prefix |
| StringUtils.MaayaSakamotoPrefix | src/Murg.Backend/StringUtils.cs:122-133 | the two example names have the common prefix `"Maaya Sakamoto - Shippo no Uta Single - 0"` |
| TrackDirInfoExtractor.MatchAt | src/Murg.Backend/InfoExtraction/TrackDirInfoExtractor.cs:19-20 | a match starting at a position is a digit group followed by a separator, inside the text |
| TrackDirInfoExtractor.MatchAtSpec | src/Murg.Backend/InfoExtraction/TrackDirInfoExtractor.cs:19-20 | a match is an occurrence of `(\d+) ?[-.] ?` that takes the longest separator; without a match no occurrence starts there |
| TrackDirInfoExtractor.LastMatchFromKeeps | src/Murg.Backend/InfoExtraction/TrackDirInfoExtractor.cs:20 | the scan finds nothing exactly when nothing was found before and no match starts later |
| TrackDirInfoExtractor.LastMatch | src/Murg.Backend/InfoExtraction/TrackDirInfoExtractor.cs:19-20 | absent exactly when the pattern never matches; otherwise a match that no later match follows, preceded by no digit |
| TrackDirInfoExtractor.RemoveCommonTokensKeeps | src/Murg.Backend/InfoExtraction/TrackDirInfoExtractor.cs:14-17 | the tokens of the result are the text's tokens, in order, without the common ones |
| TrackDirInfoExtractor.DigitGroup | src/Murg.Backend/InfoExtraction/TrackDirInfoExtractor.cs:28 | the digit group of a match is a non-empty digit run |
| TrackDirInfoExtractor.ExtractTrackInfo | src/Murg.Backend/InfoExtraction/TrackDirInfoExtractor.cs:12-37 | without a match: no number and the whole text as title; with one: the value of the last match's digits as number and the trimmed rest as title, or an overflow error when the value exceeds `Int32` |
| TrackDirInfoExtractor.MeaningfulTokensOfTrack | src/Murg.Backend/InfoExtraction/TrackDirInfoExtractor.cs:14-35 | the meaningful tokens are the title's tokens in order, without the common tokens and, for a numbered track, without the number written as `0` and `00` |
| TrackDirInfoExtractor.FirstSongExample | src/Murg.Backend/InfoExtraction/TrackDirInfoExtractor.cs:19-35 | `"01. First Song"` gives number 1 and title `"First Song"` |
| TrackDirInfoExtractor.NumberedTrack | src/Murg.Backend/InfoExtraction/TrackDirInfoExtractor.cs:28-35 | with a last match whose digits fit in `Int32`, the number and title come from that match |
| TrackDirInfoExtractor.StemPrefix | src/Murg.Backend/InfoExtraction/TrackDirInfoExtractor.cs:45-49 | the trimmed prefix is no longer than any file name stem |
| TrackDirInfoExtractor.Residues | src/Murg.Backend/InfoExtraction/TrackDirInfoExtractor.cs:50-53 | each residue is its stem with the prefix length cut off |
| TrackDirInfoExtractor.AudioPaths | src/Murg.Backend/InfoExtraction/TrackDirInfoExtractor.cs:42 | the paths of the audio files, in input order |
| TrackDirInfoExtractor.Extract | src/Murg.Backend/InfoExtraction/TrackDirInfoExtractor.cs:39-43 | with no audio file: the input's path, no common prefix and no tracks |
| TrackDirInfoExtractor.ExtractFrom | src/Murg.Backend/InfoExtraction/TrackDirInfoExtractor.cs:43-64 | one track per audio file, in order, named by its file name; a common prefix exactly when the trimmed prefix is non-empty |
| TrackDirInfoExtractor.ExtractedTracks | src/Murg.Backend/InfoExtraction/TrackDirInfoExtractor.cs:50-62 | each track is its file's extraction with the shared common tokens, and no meaningful token is a common token |
| TrackDirInfoExtractor.ExtractFailsOnOverflow | src/Murg.Backend/InfoExtraction/TrackDirInfoExtractor.cs:57-63 | extraction fails exactly when some file's track number does not parse |
| Matcher.CheckReleaseNameConsistency | src/Murg.Backend/Matcher.cs:17-24 | consistent exactly when both names hold the same digit groups, each as often |
| Matcher.NameConsistencyReflexive | src/Murg.Backend/Matcher.cs:17-24 | every name is consistent with itself |
| Matcher.NameConsistencySymmetric | src/Murg.Backend/Matcher.cs:17-24 | consistency does not depend on argument order |
| Matcher.NameConsistencyIgnoresOrder | src/Murg.Backend/Matcher.cs:20 | names with the same digit groups in a different order are consistent |
| Matcher.VolumeMismatch | src/Murg.Backend/Matcher.cs:17-24 | the same text ending in two different digits is inconsistent |
| Matcher.CompilationVolumes | src/Murg.Backend/Matcher.cs:17-24 | `"Compilation Vol 2"` is rejected for the query `"Compilation Vol 3"` |
| Sorting.SortStrings | src/Murg.Backend/Matcher.cs:20 | ordinal ascending sort: a sorted permutation of the input |
| Sorting.SortedEqualIffSameElements | src/Murg.Backend/Matcher.cs:20-23 | two sorted lists are equal exactly when the inputs hold the same strings, each as often |
| Matcher.LongTokensOfAll | src/Murg.Backend/Matcher.cs:30-32 | the tokens longer than 3 characters of all the texts, and only those |
| Matcher.Conformity | src/Murg.Backend/Matcher.cs:35-39 | the number of distinct long tracklist tokens found locally is at most the number of local tokens |
| Matcher.CheckReleasesConsistency | src/Murg.Backend/Matcher.cs:26-46 | keeps exactly the releases whose conformity is at least a third of the local token count, and no others |
| Matcher.FewTokensKeepAll | src/Murg.Backend/Matcher.cs:28-44 | with fewer than 3 local tokens every release is kept, including when there are none |
| Matcher.ConsistencyKeepsOrder | src/Murg.Backend/Matcher.cs:42-45 | filtering distributes over concatenation, so order is kept |
| Matcher.GoodBriefReleases | src/Murg.Backend/Matcher.cs:57-60 | at most 5 search results, each with `Id != MasterId` and a consistent title; with fewer than 5, all such results |
| Matcher.GoodBriefsAreFirst | src/Murg.Backend/Matcher.cs:57-60 | the fetched results are the first five good results in search order, or all of them when there are fewer |
| Matcher.Accept | src/Murg.Backend/Matcher.cs:68-70 | a release is kept exactly when its tracklist is present with `tracksCount` entries, and then only the entries with a position remain |
| Matcher.AcceptKeepsOrder | src/Murg.Backend/Matcher.cs:68-70 | the accepted tracklist is the entries with a position, in their order |
| Matcher.FindMatchingReleases | src/Murg.Backend/Matcher.cs:48-78 | the fetch loop returns the conforming accepted releases of the good search results |
| Matcher.FetchedOrigin | src/Murg.Backend/Matcher.cs:63-75 | every fetched release comes from a good search result whose lookup succeeded and was accepted |
| Matcher.FetchedAppend | src/Murg.Backend/Matcher.cs:63-75 | fetching keeps search order: the releases of two runs of results are those of the first run followed by those of the second |
| Matcher.FetchedComplete | src/Murg.Backend/Matcher.cs:63-75 | every good search result whose lookup succeeded and was accepted is fetched |
| Matcher.MatchingReleasesFacts | src/Murg.Backend/Matcher.cs:48-78 | at most 5 releases; each has only positioned entries, conforms, and comes from a consistent search result whose tracklist had `tracksCount` entries |
| Matcher.SimplifiedName | src/Murg.Backend/Matcher.cs:82-83 | the characters of the name that are allowed symbols, and nothing else |
| Matcher.SimplifiedNameAppend | src/Murg.Backend/Matcher.cs:82-83 | simplifying keeps order and multiplicity: two parts simplify one after the other |
| Matcher.SimplifiedNameOfChar | src/Murg.Backend/Matcher.cs:82-83 | a single character is kept exactly when it is an allowed symbol |
| Matcher.SimplifiedNameOfSimple | src/Murg.Backend/Matcher.cs:82-83 | a name of allowed symbols only is unchanged |
| Matcher.DirNameToQueries | src/Murg.Backend/Matcher.cs:80-88 | one query fewer than there are words; the first is the whole simplified name |
| Matcher.QueryWords | src/Murg.Backend/Matcher.cs:86-87 | query `k` consists of the first `n - k` words and is a prefix of the simplified name |
| Matcher.QueryCount | src/Murg.Backend/Matcher.cs:85-86 | the number of queries is the number of spaces in the simplified name |
| Matcher.OneWordNoQueries | src/Murg.Backend/Matcher.cs:86 | a one-word name yields no query |
| Matcher.FourWords | src/Murg.Backend/Matcher.cs:80-88 | four words give the queries of four, three and two words |
| Matcher.QueryOfDirectory | src/Murg.Backend/Matcher.cs:93-94 | the common-prefix queries come first, longest first, then the leaf-name queries, longest first; each is a word prefix of its simplified name |
| Matcher.FirstFound | src/Murg.Backend/Matcher.cs:95-99 | empty exactly when every query finds nothing |
| Matcher.FirstFoundIsFirst | src/Murg.Backend/Matcher.cs:95-99 | the releases of the first query that finds any |
| Matcher.Rank | src/Murg.Backend/Matcher.cs:105-106 | a permutation of the releases, greatest (canonicity sum, have) key first, ties in input order |
| Matcher.RankKeepsReleases | src/Murg.Backend/Matcher.cs:105-106 | the ranking holds the same releases |
| Matcher.RankDescending | src/Murg.Backend/Matcher.cs:105-106 | keys do not increase along the ranking |
| Matcher.RankFirstIsBest | src/Murg.Backend/Matcher.cs:107 | the first ranked release has a key at least that of every release |
| Matcher.TrackByNumber | src/Murg.Backend/Matcher.cs:113-114 | fails exactly when some release lacks entry `n - 1`; otherwise a release's entry `n - 1` of greatest title canonicity |
| Matcher.TrackByNumberFirstOnTies | src/Murg.Backend/Matcher.cs:113-114 | the chosen entry is that of the first ranked release reaching the greatest canonicity; every earlier release's entry is less canonical |
| Matcher.ClosestTrack | src/Murg.Backend/Matcher.cs:115-117 | fails exactly on an empty tracklist; otherwise an entry of least edit distance to the title |
| Matcher.ClosestTrackFirstOnTies | src/Murg.Backend/Matcher.cs:115-117 | the chosen entry is the first at the least edit distance; every earlier entry is farther from the title |
| Matcher.FindClosestTrack | src/Murg.Backend/Matcher.cs:115-117 | the scan returns the first entry of least edit distance |
| Matcher.MatchTrack | src/Murg.Backend/Matcher.cs:110-132 | combined path; own number, or the release position parsed (a parse failure is a fault); the trimmed release title or the local title by the canonicity and length test |
| Matcher.AlbumTitle | src/Murg.Backend/Matcher.cs:135-138 | one of the release titles or the leaf name, at least as canonical as each of them, and the first such among the ranked titles followed by the leaf name |
| Matcher.AlbumTitlePrefersRelease | src/Murg.Backend/Matcher.cs:135-138 | the leaf name is the album title only when it is strictly more canonical than every release title |
| Matcher.MatchedTracks | src/Murg.Backend/Matcher.cs:110-133 | one match per track file, in order |
| Matcher.MatchOneTrack | src/Murg.Backend/Matcher.cs:110-132 | the loop body for one track file computes that file's match |
| Matcher.FindFirstReleases | src/Murg.Backend/Matcher.cs:92-99 | the query loop stops at the first query that finds releases |
| Matcher.MatchReleases | src/Murg.Backend/Matcher.cs:101-143 | ranks the releases, matches each track in turn, stops at the first fault, and builds the output |
| Matcher.Match | src/Murg.Backend/Matcher.cs:90-144 | `Match` returns the outcome for the first query's releases |
| Matcher.MatchNone | src/Murg.Backend/Matcher.cs:95-101 | no result exactly when every query finds nothing |
| Matcher.MatchFault | src/Murg.Backend/Matcher.cs:110-133 | a fault is the fault of the first track file whose match fails |
| Matcher.MatchOutput | src/Murg.Backend/Matcher.cs:105-143 | output tracks correspond to the track files in order; the album comes from the ranked titles; the performers are the best release's artists; the best release has the greatest key |

## Left out

- File-system access, HTTP, the Discogs JSON client, caching, rate limiting, the task queue, the command line and tag writing are not part of this model.
- `src/Murg/Program.cs` keeps a second copy of the matching logic mixed with file moves and tag writing. It is not part of this model.
- The legacy `src/Murg.Backend/FsInfo/TrackDirInfoExtractor.cs` is not part of this model.
- The database search and release lookup are parameters. A failed lookup (`DiscogsApiException`) is `None`; other exceptions and asynchrony are not modelled.
- .NET character classes are restricted to ASCII: letters, digits, punctuation (the ASCII characters of the Unicode punctuation categories) and lower/upper-case mapping. Culture-specific case mapping is not modelled.
- Paths use `/` as the only separator, as .NET does on Unix. `Path.GetExtension` returns `null` only for a `null` path, and `null` strings are not modelled.
- `Extract` receives the audio files in the order it sorts them. `OrderBy(x => x.Path)` uses culture-sensitive comparison, which is not modelled, so the files are taken in input order.
- `Sorting.SortStrings`: compares strings ordinally rather than with the culture-sensitive comparer `OrderBy` uses. Only equality of the sorted lists matters to `CheckReleaseNameConsistency`, and any total order gives the same answer.
- `StringUtils.MeasureStringCanonicity`: does not model the overflow of the character-penalty sum. The source sums with LINQ's checked `Sum` (StringUtils.cs:45), which throws `OverflowException` once the total leaves Int32, only for strings of more than about 21 million characters; that exception would escape `Match`. The model sums without bound and neither wraps around nor faults.
- `Matcher.RankKey`: does not model the overflow of the canonicity sum over a tracklist. The source's `Sum(canonicity)` (Matcher.cs:106) is LINQ's checked sum and throws `OverflowException`, which escapes `Match`, once the total leaves Int32. The model's sum is unbounded and neither wraps around nor faults.
- `Matcher.Match`: requires every track title to be at most .NET's maximum string length. The array in `CalculateLevenshteinDistance` is sized from the title length, and this bound keeps every cell in `Int32`.
- `Matcher.FindClosestTrack`: scans for the first minimum rather than using LINQ's stable `OrderBy(…).First()`. Both pick the first entry of least distance.
- `Text.ParseInt` accepts only ASCII digits, with white space, an optional sign, and the `Int32` range. Cultures and non-ASCII digits are not modelled.
- `InputFile` contents and the unused `MatchedTrackDirInfo` record carry no logic and are not modelled beyond their fields.
