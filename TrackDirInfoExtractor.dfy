/** Turns the sorted audio file paths of one directory into a `TrackDirInfo`:
    the common prefix of the file names, and per file a track number, a title
    and the title tokens that tell this track apart from the others. */
module TrackDirInfoExtractor {
  import opened Wrappers
  import opened Seqs
  import opened Text
  import opened Paths
  import opened StringUtils
  import opened Records

  // ---------------------------------------------------------------------------
  // The track-number pattern `(\d+) ?[-.] ?`

  /** One match of the pattern: the digit group is `s[start..digitsEnd]` and the
      whole match is `s[start..end]`. */
  datatype TrackNoMatch = TrackNoMatch(start: nat, digitsEnd: nat, end: nat)

  predicate IsSeparator(c: char) { c == '-' || c == '.' }

  /** The text ` ?[-.] ?`: an optional space, a dash or a dot, an optional space. */
  predicate IsSeparatorText(t: string)
  {
    var u := if t != [] && t[0] == ' ' then t[1..] else t;
    |u| >= 1 && IsSeparator(u[0]) && (|u| == 1 || (|u| == 2 && u[1] == ' '))
  }

  /** `s[start..end]` is an occurrence of the pattern whose digit group ends at `digitsEnd`. */
  predicate IsOccurrence(s: string, start: nat, digitsEnd: nat, end: nat)
  {
    && start < digitsEnd <= end <= |s|
    && (forall k :: start <= k < digitsEnd ==> IsDigit(s[k]))
    && IsSeparatorText(s[digitsEnd..end])
  }

  /** The end of the separator ` ?[-.]` that starts at `n`, if there is one. */
  function SeparatorEnd(s: string, n: nat): (r: Option<nat>)
    ensures r.Some? ==> n < r.value <= |s| && IsSeparatorText(s[n..r.value])
  {
    if n < |s| && IsSeparator(s[n]) then Some(n + 1)
    else if n + 1 < |s| && s[n] == ' ' && IsSeparator(s[n + 1]) then
      assert s[n..n + 2][1..] == [s[n + 1]];
      Some(n + 2)
    else None
  }

  /** The end of the digit run that starts at `i`. */
  function DigitRunEnd(s: string, i: nat): (n: nat)
    requires i <= |s|
    ensures i <= n <= |s|
    ensures forall k :: i <= k < n ==> IsDigit(s[k])
    ensures n == |s| || !IsDigit(s[n])
    decreases |s| - i
  {
    if i < |s| && IsDigit(s[i]) then DigitRunEnd(s, i + 1) else i
  }

  /** The regular-expression engine's match at `i`: the longest digit run from `i`
      (a shorter one would be followed by a digit, which the rest cannot
      match), then the separator, then a trailing space if there is one. */
  function MatchAt(s: string, i: nat): (r: Option<TrackNoMatch>)
    ensures r.Some? ==> r.value.start == i < r.value.digitsEnd < r.value.end <= |s|
  {
    if i >= |s| || !IsDigit(s[i]) then None
    else
      var n := DigitRunEnd(s, i);
      match SeparatorEnd(s, n)
      case None => None
      case Some(sepEnd) =>
        var end := if sepEnd < |s| && s[sepEnd] == ' ' then sepEnd + 1 else sepEnd;
        assert IsSeparatorText(s[n..end]) by {
          if end == sepEnd + 1 {
            assert s[n..end][..|s[n..end]| - 1] == s[n..sepEnd];
          }
        }
        Some(TrackNoMatch(i, n, end))
  }

  /** `MatchAt` finds an occurrence, misses none, and takes the longest one. */
  lemma MatchAtSpec(s: string, i: nat)
    ensures var r := MatchAt(s, i);
      r.Some? ==> IsOccurrence(s, i, r.value.digitsEnd, r.value.end)
    ensures MatchAt(s, i).None? ==> forall d: nat, e: nat :: !IsOccurrence(s, i, d, e)
    ensures var r := MatchAt(s, i);
      r.Some? ==> forall e :: r.value.end < e <= |s| ==> !IsSeparatorText(s[r.value.digitsEnd..e])
  {
    if i < |s| && IsDigit(s[i]) {
      var n := DigitRunEnd(s, i);
      OccurrenceDigitsEnd(s, i, n);
      match SeparatorEnd(s, n)
      case None =>
      case Some(sepEnd) =>
        var end := if sepEnd < |s| && s[sepEnd] == ' ' then sepEnd + 1 else sepEnd;
        LongestSeparator(s, n, sepEnd, end);
    }
  }

  /** An occurrence's digit group is the whole digit run from its start, and
      its separator is the one `SeparatorEnd` finds. */
  lemma OccurrenceDigitsEnd(s: string, i: nat, n: nat)
    requires i < n <= |s|
    requires forall k :: i <= k < n ==> IsDigit(s[k])
    requires n == |s| || !IsDigit(s[n])
    ensures forall d: nat, e: nat :: IsOccurrence(s, i, d, e) ==> d == n && SeparatorEnd(s, n).Some?
  {
    forall d: nat, e: nat | IsOccurrence(s, i, d, e) ensures d == n && SeparatorEnd(s, n).Some? {
      var t := s[d..e];
      assert t[0] == s[d] && !IsDigit(t[0]);
      if t[0] != ' ' {
        assert IsSeparator(s[n]);
      } else {
        assert t[1..][0] == s[n + 1];
      }
    }
  }

  /** The trailing space is taken whenever it is there. */
  lemma LongestSeparator(s: string, n: nat, sepEnd: nat, end: nat)
    requires SeparatorEnd(s, n) == Some(sepEnd)
    requires end == if sepEnd < |s| && s[sepEnd] == ' ' then sepEnd + 1 else sepEnd
    ensures forall e :: end < e <= |s| ==> !IsSeparatorText(s[n..e])
  {
    forall e | end < e <= |s| ensures !IsSeparatorText(s[n..e]) {
      var t := s[n..e];
      if sepEnd == n + 2 {
        assert t[0] == ' ';
        if end == sepEnd {
          assert t[1..][1] == s[n + 2];
        }
      } else {
        assert t[0] == s[n];
        if end == sepEnd {
          assert t[1] == s[n + 1];
        }
      }
    }
  }

  /** No occurrence of the pattern starts at or after `from`. */
  predicate NoMatchFrom(s: string, from: nat)
  {
    forall j :: from <= j < |s| ==> MatchAt(s, j).None?
  }

  /** Where the scan may resume: after the last match, or at 0. */
  function ResumeAt(last: Option<TrackNoMatch>): nat
  {
    if last.Some? then last.value.end else 0
  }

  /** `Regex.Matches(...).LastOrDefault()` from position `pos` on: try each
      position in turn and, after a match, resume at its end. */
  function LastMatchFrom(s: string, pos: nat, last: Option<TrackNoMatch>): (r: Option<TrackNoMatch>)
    requires pos <= |s|
    ensures r.None? ==> last.None?
    decreases |s| - pos
  {
    if pos == |s| then last
    else
      match MatchAt(s, pos)
      case Some(m) => LastMatchFrom(s, m.end, Some(m))
      case None => LastMatchFrom(s, pos + 1, last)
  }

  /** `r`, when present, is a match after which none starts, and its digit
      group is a whole digit run. */
  predicate IsLastMatch(s: string, r: Option<TrackNoMatch>)
  {
    r.Some? ==>
      && MatchAt(s, r.value.start) == r
      && NoMatchFrom(s, r.value.end)
      && (r.value.start == 0 || !IsDigit(s[r.value.start - 1]))
  }

  /** Scanning from `pos` with no match in `[ResumeAt(last)..pos)` finds a
      match after which none starts, and whose digit group is a whole run. */
  lemma {:induction false} LastMatchFromFinds(s: string, pos: nat, last: Option<TrackNoMatch>)
    requires pos <= |s|
    requires last.Some? ==> MatchAt(s, last.value.start) == last && last.value.end <= pos
    requires last.Some? ==> last.value.start == 0 || !IsDigit(s[last.value.start - 1])
    requires forall j :: ResumeAt(last) <= j < pos ==> MatchAt(s, j).None?
    requires 0 < pos < |s| && IsDigit(s[pos]) && IsDigit(s[pos - 1]) ==> MatchAt(s, pos).None?
    ensures IsLastMatch(s, LastMatchFrom(s, pos, last))
    decreases |s| - pos, 1
  {
    if pos == |s| {
      assert LastMatchFrom(s, pos, last) == last;
      if last.Some? {
        assert NoMatchFrom(s, last.value.end);
      }
    } else if MatchAt(s, pos).Some? {
      LastMatchFromFindsAfterHit(s, pos, last);
    } else {
      LastMatchFromFindsAfterMiss(s, pos, last);
    }
  }

  /** `LastMatchFromFinds` when a match starts at `pos`: the scan resumes after it. */
  lemma {:induction false} LastMatchFromFindsAfterHit(s: string, pos: nat, last: Option<TrackNoMatch>)
    requires pos < |s| && MatchAt(s, pos).Some?
    requires 0 < pos && IsDigit(s[pos]) && IsDigit(s[pos - 1]) ==> MatchAt(s, pos).None?
    ensures IsLastMatch(s, LastMatchFrom(s, pos, last))
    decreases |s| - pos, 0
  {
    var m := MatchAt(s, pos).value;
    assert LastMatchFrom(s, pos, last) == LastMatchFrom(s, m.end, Some(m));
    NextPositionAfterMatch(s, m);
    LastMatchFromFinds(s, m.end, Some(m));
  }

  /** `LastMatchFromFinds` when no match starts at `pos`: the scan moves on by one. */
  lemma {:induction false} LastMatchFromFindsAfterMiss(s: string, pos: nat, last: Option<TrackNoMatch>)
    requires pos < |s| && MatchAt(s, pos).None?
    requires last.Some? ==> MatchAt(s, last.value.start) == last && last.value.end <= pos
    requires last.Some? ==> last.value.start == 0 || !IsDigit(s[last.value.start - 1])
    requires forall j :: ResumeAt(last) <= j < pos ==> MatchAt(s, j).None?
    ensures IsLastMatch(s, LastMatchFrom(s, pos, last))
    decreases |s| - pos, 0
  {
    assert LastMatchFrom(s, pos, last) == LastMatchFrom(s, pos + 1, last);
    assert forall j :: ResumeAt(last) <= j < pos + 1 ==> MatchAt(s, j).None?;
    assert pos + 1 < |s| && IsDigit(s[pos + 1]) && IsDigit(s[pos]) ==> MatchAt(s, pos + 1).None? by {
      MatchExtendsLeft(s, pos);
    }
    LastMatchFromFinds(s, pos + 1, last);
  }

  /** The scan from `pos` finds nothing new exactly when no match starts at or
      after `pos`. */
  lemma {:induction false} LastMatchFromKeeps(s: string, pos: nat, last: Option<TrackNoMatch>)
    requires pos <= |s|
    ensures LastMatchFrom(s, pos, last).None? <==> last.None? && NoMatchFrom(s, pos)
    ensures NoMatchFrom(s, pos) ==> LastMatchFrom(s, pos, last) == last
    decreases |s| - pos
  {
    if pos < |s| {
      match MatchAt(s, pos)
      case Some(m) =>
        assert LastMatchFrom(s, pos, last) == LastMatchFrom(s, m.end, Some(m));
        assert !NoMatchFrom(s, pos);
      case None =>
        assert LastMatchFrom(s, pos, last) == LastMatchFrom(s, pos + 1, last);
        assert NoMatchFrom(s, pos) <==> NoMatchFrom(s, pos + 1);
        LastMatchFromKeeps(s, pos + 1, last);
    }
  }

  /** A match ends on a space, a dash or a dot, never on a digit. */
  lemma NextPositionAfterMatch(s: string, m: TrackNoMatch)
    requires MatchAt(s, m.start) == Some(m)
    ensures IsDigit(s[m.start]) && !IsDigit(s[m.end - 1])
  {
    MatchAtSpec(s, m.start);
    var t := s[m.digitsEnd..m.end];
    assert t[|t| - 1] == s[m.end - 1];
  }

  /** A match that starts right after a digit extends to one that starts at the digit. */
  lemma MatchExtendsLeft(s: string, pos: nat)
    ensures pos + 1 < |s| && IsDigit(s[pos]) && MatchAt(s, pos + 1).Some? ==> MatchAt(s, pos).Some?
  {
    if pos + 1 < |s| && IsDigit(s[pos]) && MatchAt(s, pos + 1).Some? {
      var m := MatchAt(s, pos + 1).value;
      MatchAtSpec(s, pos + 1);
      assert IsOccurrence(s, pos, m.digitsEnd, m.end);
      MatchAtSpec(s, pos);
    }
  }

  /** The last match of the pattern in a left-to-right scan, if any. It is an
      occurrence whose digit group is a whole digit run, and no occurrence
      starts after it. */
  function LastMatch(s: string): (r: Option<TrackNoMatch>)
    ensures r.None? <==> NoMatchFrom(s, 0)
    ensures r.Some? ==> MatchAt(s, r.value.start) == r && NoMatchFrom(s, r.value.end)
    ensures r.Some? ==> r.value.start == 0 || !IsDigit(s[r.value.start - 1])
    ensures r.Some? ==> IsOccurrence(s, r.value.start, r.value.digitsEnd, r.value.end)
  {
    LastMatchFromFinds(s, 0, None);
    LastMatchFromKeeps(s, 0, None);
    var r := LastMatchFrom(s, 0, None);
    assert r.Some? ==> IsOccurrence(s, r.value.start, r.value.digitsEnd, r.value.end) by {
      if r.Some? {
        MatchAtSpec(s, r.value.start);
      }
    }
    r
  }

  // ---------------------------------------------------------------------------
  // Track information from one file name

  /** The test that keeps a token out of the meaningful ones. */
  function NotCommon(commonTokens: set<string>): string -> bool
  {
    t => t !in commonTokens
  }

  /** The tokens of `s` outside `commonTokens`, joined by single spaces. */
  function RemoveCommonTokens(s: string, commonTokens: set<string>): string
  {
    Join(Filter(SplitToTokens(s), NotCommon(commonTokens)), ' ')
  }

  /** Tokenizing the result gives back the kept tokens, in order: those tokens
      of `s` that are not common. */
  lemma RemoveCommonTokensKeeps(s: string, commonTokens: set<string>)
    ensures SplitToTokens(RemoveCommonTokens(s, commonTokens)) == Filter(SplitToTokens(s), NotCommon(commonTokens))
    ensures forall t :: t in SplitToTokens(RemoveCommonTokens(s, commonTokens)) <==>
      t in SplitToTokens(s) && t !in commonTokens
  {
    var kept := Filter(SplitToTokens(s), NotCommon(commonTokens));
    assert forall k :: 0 <= k < |kept| ==> IsToken(kept[k]) by {
      forall k | 0 <= k < |kept| ensures IsToken(kept[k]) {
        FilterMembership(SplitToTokens(s), NotCommon(commonTokens), kept[k]);
      }
    }
    TokensOfJoin(kept);
    forall t ensures t in kept <==> t in SplitToTokens(s) && t !in commonTokens {
      FilterMembership(SplitToTokens(s), NotCommon(commonTokens), t);
    }
  }

  /** The digit group of a match. */
  function DigitGroup(s: string, m: TrackNoMatch): (digits: string)
    requires IsOccurrence(s, m.start, m.digitsEnd, m.end)
    ensures digits != [] && AllDigits(digits)
  {
    s[m.start..m.digitsEnd]
  }

  /** `ExtractTrackInfo`: without a match the whole residue is the title; with
      one, the number is the value of the last match's digit group (an
      `OverflowError`, as `int.Parse` throws, when it exceeds `int.MaxValue`), the
      title is the trimmed rest after the match, and the number written as
      `0` and `00` joins the tokens to remove. */
  function ExtractTrackInfo(originalFileName: string, commonTokens: set<string>, fileName: string): (r: Result<TrackInfo, ParseError>)
    ensures r.Ok? ==> r.value.fileName == originalFileName
    ensures LastMatch(fileName).None? ==>
      r.Ok? && r.value.trackNumber.None? && r.value.trackTitle == fileName
    ensures LastMatch(fileName).Some? ==>
      var m := LastMatch(fileName).value;
      var n := DigitsValue(DigitGroup(fileName, m));
      && (r.Ok? <==> n <= IntMax)
      && (r.Ok? ==> r.value.trackNumber == Some(n) && r.value.trackTitle == Trim(fileName[m.end..]))
    ensures r.Err? ==> r.error == OverflowError
  {
    match LastMatch(fileName)
    case None =>
      Ok(TrackInfo(originalFileName, None, fileName, RemoveCommonTokens(fileName, commonTokens)))
    case Some(m) =>
      var digits := DigitGroup(fileName, m);
      ParseDigits(digits);
      if DigitsValue(digits) > IntMax then Err(OverflowError)
      else
        var trackNumber := DigitsValue(digits);
        var trackTitle := Trim(fileName[m.end..]);
        var tokens := commonTokens + {FormatDecimal(trackNumber), FormatTwoDigits(trackNumber)};
        Ok(TrackInfo(originalFileName, Some(trackNumber), trackTitle, RemoveCommonTokens(trackTitle, tokens)))
  }

  /** The meaningful tokens are the tokens of the title, in order, without the
      common ones and, for a numbered track, without the number written as `0`
      or `00`. */
  lemma MeaningfulTokensOfTrack(originalFileName: string, commonTokens: set<string>, fileName: string)
    requires ExtractTrackInfo(originalFileName, commonTokens, fileName).Ok?
    ensures var info := ExtractTrackInfo(originalFileName, commonTokens, fileName).value;
      info.trackNumber.None? ==>
        SplitToTokens(info.meaningfulTrackTitleTokens) == Filter(SplitToTokens(info.trackTitle), NotCommon(commonTokens))
    ensures var info := ExtractTrackInfo(originalFileName, commonTokens, fileName).value;
      info.trackNumber.Some? && info.trackNumber.value >= 0 ==>
        var n := info.trackNumber.value;
        SplitToTokens(info.meaningfulTrackTitleTokens)
          == Filter(SplitToTokens(info.trackTitle), NotCommon(commonTokens + {FormatDecimal(n), FormatTwoDigits(n)}))
    ensures var info := ExtractTrackInfo(originalFileName, commonTokens, fileName).value;
      forall t :: t in SplitToTokens(info.meaningfulTrackTitleTokens) ==>
        t in SplitToTokens(info.trackTitle) && t !in commonTokens
    ensures var info := ExtractTrackInfo(originalFileName, commonTokens, fileName).value;
      info.trackNumber.Some? && info.trackNumber.value >= 0 ==>
        FormatDecimal(info.trackNumber.value) !in SplitToTokens(info.meaningfulTrackTitleTokens)
        && FormatTwoDigits(info.trackNumber.value) !in SplitToTokens(info.meaningfulTrackTitleTokens)
  {
    var info := ExtractTrackInfo(originalFileName, commonTokens, fileName).value;
    match LastMatch(fileName)
    case None =>
      assert info.meaningfulTrackTitleTokens == RemoveCommonTokens(fileName, commonTokens);
      RemoveCommonTokensKeeps(fileName, commonTokens);
    case Some(m) =>
      var n := DigitsValue(DigitGroup(fileName, m));
      var title := Trim(fileName[m.end..]);
      var tokens := commonTokens + {FormatDecimal(n), FormatTwoDigits(n)};
      assert info.trackNumber == Some(n) && info.trackTitle == title;
      assert info.meaningfulTrackTitleTokens == RemoveCommonTokens(title, tokens);
      RemoveCommonTokensKeeps(title, tokens);
  }

  /** In `01. First Song` the only match is `01. `. */
  lemma FirstSongMatch(fileName: string)
    requires fileName == "01. First Song"
    ensures LastMatch(fileName) == Some(TrackNoMatch(0, 2, 4))
  {
    var m := TrackNoMatch(0, 2, 4);
    assert MatchAt(fileName, 0) == Some(m) by {
      assert DigitRunEnd(fileName, 2) == 2;
      assert DigitRunEnd(fileName, 1) == 2;
      assert DigitRunEnd(fileName, 0) == 2;
      assert SeparatorEnd(fileName, 2) == Some(3);
    }
    assert NoMatchFrom(fileName, 4) by {
      forall j | 4 <= j < |fileName| ensures MatchAt(fileName, j).None? {
        assert !IsDigit(fileName[j]);
      }
    }
    assert LastMatchFrom(fileName, 0, None) == LastMatchFrom(fileName, 4, Some(m));
    LastMatchFromKeeps(fileName, 4, Some(m));
  }

  /** The pattern at the head of a residue: `01. First Song` is track 1,
      titled `First Song`, whatever the common tokens. */
  lemma FirstSongExample(originalFileName: string, commonTokens: set<string>, fileName: string)
    requires fileName == "01. First Song"
    ensures var r := ExtractTrackInfo(originalFileName, commonTokens, fileName);
      r.Ok? && r.value.trackNumber == Some(1) && r.value.trackTitle == "First Song"
  {
    var m := TrackNoMatch(0, 2, 4);
    FirstSongMatch(fileName);
    FirstSongNumber(fileName);
    FirstSongTitle(fileName);
    NumberedTrack(originalFileName, commonTokens, fileName, m, 1);
  }

  lemma FirstSongNumber(fileName: string)
    requires fileName == "01. First Song" && LastMatch(fileName) == Some(TrackNoMatch(0, 2, 4))
    ensures DigitsValue(DigitGroup(fileName, TrackNoMatch(0, 2, 4))) == 1
  {
    assert DigitGroup(fileName, TrackNoMatch(0, 2, 4)) == "01";
    assert "01"[..1] == "0" && "0"[..0] == "";
    assert DigitsValue("0") == 0;
  }

  lemma FirstSongTitle(fileName: string)
    requires fileName == "01. First Song"
    ensures Trim(fileName[4..]) == "First Song"
  {
    var title := fileName[4..];
    assert title == "First Song";
    TrimUnpadded(title);
  }

  /** `ExtractTrackInfo` once the last match and its value are known. */
  lemma NumberedTrack(originalFileName: string, commonTokens: set<string>, fileName: string, m: TrackNoMatch, n: nat)
    requires LastMatch(fileName) == Some(m)
    requires DigitsValue(DigitGroup(fileName, m)) == n <= IntMax
    ensures var r := ExtractTrackInfo(originalFileName, commonTokens, fileName);
      r.Ok? && r.value.trackNumber == Some(n) && r.value.trackTitle == Trim(fileName[m.end..])
  {
  }

  // ---------------------------------------------------------------------------
  // The whole directory

  /** The file names of the paths, without their extensions. */
  function Stems(audioFiles: seq<string>): (stems: seq<string>)
    ensures |stems| == |audioFiles|
    ensures forall k :: 0 <= k < |stems| ==> stems[k] == GetFileNameWithoutExtension(audioFiles[k])
  {
    seq(|audioFiles|, k requires 0 <= k < |audioFiles| => GetFileNameWithoutExtension(audioFiles[k]))
  }

  /** The trimmed case-insensitive longest common prefix of the stems. */
  function StemPrefix(audioFiles: seq<string>): (prefix: string)
    requires audioFiles != []
    ensures forall k :: 0 <= k < |audioFiles| ==> |prefix| <= |GetFileNameWithoutExtension(audioFiles[k])|
  {
    var lcp := FindLongestCommonPrefix(Stems(audioFiles), true);
    assert forall k :: 0 <= k < |audioFiles| ==> |lcp| <= |Stems(audioFiles)[k]|;
    Trim(lcp)
  }

  /** The stems with the first `prefixLength` characters cut off. */
  function Residues(audioFiles: seq<string>, prefixLength: nat): (residues: seq<string>)
    requires forall k :: 0 <= k < |audioFiles| ==> prefixLength <= |GetFileNameWithoutExtension(audioFiles[k])|
    ensures |residues| == |audioFiles|
    ensures forall k :: 0 <= k < |residues| ==> residues[k] == GetFileNameWithoutExtension(audioFiles[k])[prefixLength..]
  {
    seq(|audioFiles|, k requires 0 <= k < |audioFiles| => GetFileNameWithoutExtension(audioFiles[k])[prefixLength..])
  }

  /** The track information of one file: its name, and its trimmed residue. */
  function TrackOf(file: string, prefixLength: nat, commonTokens: set<string>): Result<TrackInfo, ParseError>
    requires prefixLength <= |GetFileNameWithoutExtension(file)|
  {
    ExtractTrackInfo(GetFileName(file), commonTokens, Trim(GetFileNameWithoutExtension(file)[prefixLength..]))
  }

  /** The track information of every file, in order. */
  function TrackResults(audioFiles: seq<string>, prefixLength: nat, commonTokens: set<string>): (rs: seq<Result<TrackInfo, ParseError>>)
    requires forall k :: 0 <= k < |audioFiles| ==> prefixLength <= |GetFileNameWithoutExtension(audioFiles[k])|
    ensures |rs| == |audioFiles|
    ensures forall k :: 0 <= k < |rs| ==> rs[k] == TrackOf(audioFiles[k], prefixLength, commonTokens)
  {
    seq(|audioFiles|, k requires 0 <= k < |audioFiles| => TrackOf(audioFiles[k], prefixLength, commonTokens))
  }

  predicate IsAudioFile(f: InputFile) { f.fileType == Audio }

  /** The paths of the audio files, in the order given. */
  function AudioPaths(files: seq<InputFile>): (paths: seq<string>)
    ensures |paths| == |Filter(files, IsAudioFile)|
    ensures forall k :: 0 <= k < |paths| ==> paths[k] == Filter(files, IsAudioFile)[k].path
  {
    var audio := Filter(files, IsAudioFile);
    seq(|audio|, k requires 0 <= k < |audio| => audio[k].path)
  }

  /** `Extract`: the directory's path with what its audio files say. */
  function Extract(input: InputRoot): (r: Result<TrackDirInfo, ParseError>)
    ensures (forall k :: 0 <= k < |input.files| ==> input.files[k].fileType != Audio) ==>
      r == Ok(TrackDirInfo(input.localPath, None, []))
  {
    FilterEmpty(input.files, IsAudioFile);
    ExtractFrom(input.localPath, AudioPaths(input.files))
  }

  /** The extraction proper, from the directory's path and its audio file
      paths: nothing without audio files; otherwise the trimmed common prefix
      of the stems (kept when not empty), the tokens common to all residues
      and one track per file, in order. */
  function ExtractFrom(path: string, audioFiles: seq<string>): (r: Result<TrackDirInfo, ParseError>)
    ensures audioFiles == [] ==> r == Ok(TrackDirInfo(path, None, []))
    ensures r.Ok? ==> r.value.path == path && |r.value.tracks| == |audioFiles|
    ensures r.Ok? ==> forall k :: 0 <= k < |audioFiles| ==> r.value.tracks[k].fileName == GetFileName(audioFiles[k])
    ensures r.Ok? && audioFiles != [] ==>
      (r.value.commonPrefix.Some? <==> StemPrefix(audioFiles) != []) &&
      (r.value.commonPrefix.Some? ==> r.value.commonPrefix.value == StemPrefix(audioFiles))
  {
    if audioFiles == [] then Ok(TrackDirInfo(path, None, []))
    else
      var prefix := StemPrefix(audioFiles);
      var commonTokens := CommonTokens(Residues(audioFiles, |prefix|));
      match Collect(TrackResults(audioFiles, |prefix|, commonTokens))
      case Err(e) => Err(e)
      case Ok(tracks) =>
        Ok(TrackDirInfo(path, if |prefix| > 0 then Some(prefix) else None, tracks))
  }

  /** Each track is what `ExtractTrackInfo` makes of its file's trimmed
      residue, and no meaningful token of any track is a token every residue
      shares. */
  lemma ExtractedTracks(path: string, audioFiles: seq<string>)
    requires ExtractFrom(path, audioFiles).Ok? && audioFiles != []
    ensures
      var prefix := StemPrefix(audioFiles);
      var commonTokens := CommonTokens(Residues(audioFiles, |prefix|));
      var tracks := ExtractFrom(path, audioFiles).value.tracks;
      && (forall k :: 0 <= k < |tracks| ==> TrackOf(audioFiles[k], |prefix|, commonTokens) == Ok(tracks[k]))
      && (forall k, t :: 0 <= k < |tracks| && t in SplitToTokens(tracks[k].meaningfulTrackTitleTokens) ==> t !in commonTokens)
  {
    var prefix := StemPrefix(audioFiles);
    var commonTokens := CommonTokens(Residues(audioFiles, |prefix|));
    var tracks := ExtractFrom(path, audioFiles).value.tracks;
    forall k | 0 <= k < |tracks|
      ensures TrackOf(audioFiles[k], |prefix|, commonTokens) == Ok(tracks[k])
    {
    }
    forall k, t | 0 <= k < |tracks| && t in SplitToTokens(tracks[k].meaningfulTrackTitleTokens)
      ensures t !in commonTokens
    {
      var file := audioFiles[k];
      MeaningfulTokensOfTrack(GetFileName(file), commonTokens, Trim(GetFileNameWithoutExtension(file)[|prefix|..]));
    }
  }

  /** Extraction fails exactly when the track number of some audio file does
      not fit in an `int`. */
  lemma ExtractFailsOnOverflow(path: string, audioFiles: seq<string>)
    requires audioFiles != []
    ensures var prefixLength := |StemPrefix(audioFiles)|;
      var commonTokens := CommonTokens(Residues(audioFiles, prefixLength));
      ExtractFrom(path, audioFiles).Err? <==>
        (exists k :: 0 <= k < |audioFiles| && TrackOf(audioFiles[k], prefixLength, commonTokens).Err?)
  {
    var prefix := StemPrefix(audioFiles);
    var rs := TrackResults(audioFiles, |prefix|, CommonTokens(Residues(audioFiles, |prefix|)));
    assert ExtractFrom(path, audioFiles).Err? <==> Collect(rs).Err?;
  }
}
