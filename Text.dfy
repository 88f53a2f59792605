/** The parts of the .NET string and character library that the core relies on:
    character classes, `ToLower`, `Trim`, `Split(' ')`, `string.Join(' ', …)`,
    `int.Parse` and the `"0"` / `"00"` integer formats.
    Character classes are the ASCII part of the .NET (Unicode) ones. */
module Text {
  import opened Wrappers

  const IntMax: int := 0x7FFF_FFFF
  const IntMin: int := -0x8000_0000

  /** The Int32 result of unchecked integer arithmetic: `x` wrapped around
      into the Int32 range. */
  function WrapInt32(x: int): (r: int)
    ensures IntMin <= r <= IntMax
    ensures (r - x) % 0x1_0000_0000 == 0
    ensures IntMin <= x <= IntMax ==> r == x
  {
    (x - IntMin) % 0x1_0000_0000 + IntMin
  }

  // ---------------------------------------------------------------------------
  // Character classes

  /** `char.IsLower`, restricted to ASCII. */
  predicate IsLower(c: char) { 'a' <= c <= 'z' }

  /** `char.IsUpper`, restricted to ASCII. */
  predicate IsUpper(c: char) { 'A' <= c <= 'Z' }

  /** An English letter of either case. */
  predicate IsLetter(c: char) { IsLower(c) || IsUpper(c) }

  /** `char.IsDigit`, restricted to ASCII (also the class `\d` of a regular expression). */
  predicate IsDigit(c: char) { '0' <= c <= '9' }

  /** `char.IsLetterOrDigit`, restricted to ASCII. */
  predicate IsLetterOrDigit(c: char) { IsLetter(c) || IsDigit(c) }

  /** `char.IsPunctuation` on ASCII: the characters of the Unicode categories
      Pc, Pd, Ps, Pe, Pi, Pf and Po (so `$ + < = > ^ ` | ~` are not punctuation). */
  predicate IsPunctuation(c: char) { c in "!\"#%&'()*,-./:;?@[\\]_{}" }

  /** `char.IsWhiteSpace`: the Unicode white-space characters, as `string.Trim` removes them. */
  predicate IsWhiteSpace(c: char)
  {
    || c == ' ' || ('\t' <= c <= '\r')
    || c == '\U{85}' || c == '\U{A0}' || c == '\U{1680}'
    || ('\U{2000}' <= c <= '\U{200A}')
    || c == '\U{2028}' || c == '\U{2029}' || c == '\U{202F}' || c == '\U{205F}' || c == '\U{3000}'
  }

  /** `char.ToLower`, folding ASCII letters only. */
  function ToLowerChar(c: char): (r: char)
    ensures IsUpper(c) ==> IsLower(r)
    ensures !IsUpper(c) ==> r == c
  {
    if IsUpper(c) then (c as int + 32) as char else c
  }

  /** `char.ToUpper`, folding ASCII letters only. */
  function ToUpperChar(c: char): (r: char)
    ensures IsLower(c) ==> IsUpper(r)
    ensures !IsLower(c) ==> r == c
  {
    if IsLower(c) then (c as int - 32) as char else c
  }

  /** `string.ToLower`. */
  function ToLower(s: string): (r: string)
    ensures |r| == |s|
    ensures forall i :: 0 <= i < |s| ==> r[i] == ToLowerChar(s[i])
  {
    seq(|s|, i requires 0 <= i < |s| => ToLowerChar(s[i]))
  }

  /** `string.ToUpper`. */
  function ToUpper(s: string): (r: string)
    ensures |r| == |s|
    ensures forall i :: 0 <= i < |s| ==> r[i] == ToUpperChar(s[i])
  {
    seq(|s|, i requires 0 <= i < |s| => ToUpperChar(s[i]))
  }

  // ---------------------------------------------------------------------------
  // Trim

  /** `string.TrimStart()`: drops the leading white space. */
  function TrimStart(s: string): (r: string)
    ensures |r| <= |s| && r == s[|s| - |r|..]
    ensures forall k :: 0 <= k < |s| - |r| ==> IsWhiteSpace(s[k])
    ensures r == [] || !IsWhiteSpace(r[0])
  {
    if s != [] && IsWhiteSpace(s[0]) then TrimStart(s[1..]) else s
  }

  /** `string.TrimEnd()`: drops the trailing white space. */
  function TrimEnd(s: string): (r: string)
    ensures |r| <= |s| && r == s[..|r|]
    ensures forall k :: |r| <= k < |s| ==> IsWhiteSpace(s[k])
    ensures r == [] || !IsWhiteSpace(r[|r| - 1])
  {
    if s != [] && IsWhiteSpace(s[|s| - 1]) then TrimEnd(s[..|s| - 1]) else s
  }

  /** `r` stands at offset `i` of `s`, with only white space before and after it. */
  ghost predicate PaddedBy(s: string, i: nat, r: string)
  {
    && i + |r| <= |s| && s[i..i + |r|] == r
    && (forall k :: 0 <= k < i ==> IsWhiteSpace(s[k]))
    && (forall k :: i + |r| <= k < |s| ==> IsWhiteSpace(s[k]))
  }

  /** A prefix `r` of a suffix `a` of `s`, each cut off at white space only,
      stands in `s` padded by white space. */
  lemma PaddedInfix(s: string, a: string, r: string)
    requires |a| <= |s| && a == s[|s| - |a|..]
    requires forall k :: 0 <= k < |s| - |a| ==> IsWhiteSpace(s[k])
    requires |r| <= |a| && r == a[..|r|]
    requires forall k :: |r| <= k < |a| ==> IsWhiteSpace(a[k])
    requires a == [] || !IsWhiteSpace(a[0])
    ensures PaddedBy(s, |s| - |a|, r)
    ensures r == [] || !IsWhiteSpace(r[0])
  {
    var i := |s| - |a|;
    assert r == s[i..i + |r|];
    forall k | i + |r| <= k < |s| ensures IsWhiteSpace(s[k]) {
      assert s[k] == a[k - i];
    }
    assert r != [] ==> r[0] == a[0];
  }

  /** `string.Trim()`: the infix of `s` left when the white space at both ends is dropped. */
  function Trim(s: string): (r: string)
    ensures |r| <= |s|
    ensures PaddedBy(s, |s| - |TrimStart(s)|, r)
    ensures r == [] || (!IsWhiteSpace(r[0]) && !IsWhiteSpace(r[|r| - 1]))
  {
    var a := TrimStart(s);
    var r := TrimEnd(a);
    PaddedInfix(s, a, r);
    r
  }

  /** A string with no white space at either end is its own trim. */
  lemma TrimUnpadded(s: string)
    requires s == [] || (!IsWhiteSpace(s[0]) && !IsWhiteSpace(s[|s| - 1]))
    ensures Trim(s) == s
  {
    assert TrimStart(s) == s;
    assert TrimEnd(s) == s;
  }

  // ---------------------------------------------------------------------------
  // Split and Join on one separator character

  /** `s.Split(sep)`: the pieces between separators, empty pieces kept. */
  function Split(s: string, sep: char): (words: seq<string>)
    ensures |words| >= 1
    ensures forall k :: 0 <= k < |words| ==> sep !in words[k]
  {
    if s == [] then [""]
    else
      var rest := Split(s[1..], sep);
      if s[0] == sep then [""] + rest else [[s[0]] + rest[0]] + rest[1..]
  }

  /** `string.Join(sep, words)`. */
  function Join(words: seq<string>, sep: char): (r: string)
  {
    if words == [] then "" else if |words| == 1 then words[0] else words[0] + [sep] + Join(words[1..], sep)
  }

  /** Joining the pieces of a split gives back the string. */
  lemma {:induction false} JoinSplit(s: string, sep: char)
    ensures Join(Split(s, sep), sep) == s
  {
    if s != [] {
      JoinSplit(s[1..], sep);
      var rest := Split(s[1..], sep);
      if s[0] != sep {
        var ws := [[s[0]] + rest[0]] + rest[1..];
        assert ws[1..] == rest[1..];
        if |rest| == 1 {
          assert Join(ws, sep) == [s[0]] + rest[0];
        } else {
          assert Join(ws, sep) == [s[0]] + rest[0] + [sep] + Join(rest[1..], sep);
          assert Join(rest, sep) == rest[0] + [sep] + Join(rest[1..], sep);
        }
        assert s == [s[0]] + s[1..];
      } else {
        assert ([""] + rest)[1..] == rest;
        assert s == [s[0]] + s[1..];
      }
    }
  }

  lemma {:induction false} SplitPrepend(w: string, t: string, sep: char)
    requires sep !in w
    ensures Split(w + t, sep) == [w + Split(t, sep)[0]] + Split(t, sep)[1..]
  {
    if w != [] {
      var ws := Split(t, sep);
      assert (w + t)[0] == w[0] && (w + t)[1..] == w[1..] + t;
      SplitPrepend(w[1..], t, sep);
      var rest := Split(w[1..] + t, sep);
      assert rest[0] == w[1..] + ws[0] && rest[1..] == ws[1..];
      assert Split(w + t, sep) == [[w[0]] + rest[0]] + rest[1..];
      assert [w[0]] + (w[1..] + ws[0]) == w + ws[0];
    } else {
      var ws := Split(t, sep);
      assert w + t == t && w + ws[0] == ws[0];
      assert ws == [ws[0]] + ws[1..];
    }
  }

  /** Splitting the join of separator-free pieces gives back the pieces. */
  lemma {:induction false} SplitJoin(words: seq<string>, sep: char)
    requires |words| >= 1
    requires forall k :: 0 <= k < |words| ==> sep !in words[k]
    ensures Split(Join(words, sep), sep) == words
  {
    if |words| == 1 {
      SplitPrepend(words[0], "", sep);
      assert words[0] + "" == words[0];
    } else {
      var tail := Join(words[1..], sep);
      SplitJoin(words[1..], sep);
      assert Join(words, sep) == words[0] + ([sep] + tail);
      SplitPrepend(words[0], [sep] + tail, sep);
      assert ([sep] + tail)[1..] == tail;
      assert Split([sep] + tail, sep) == [""] + words[1..];
      assert words[0] + "" == words[0];
    }
  }

  lemma JoinCons(w: string, rest: seq<string>, sep: char := ' ')
    requires rest != []
    ensures Join([w] + rest, sep) == w + [sep] + Join(rest, sep)
  {
    assert ([w] + rest)[1..] == rest;
  }

  /** Joining two non-empty lists of pieces joins their joins. */
  lemma {:induction false} JoinConcat(a: seq<string>, b: seq<string>, sep: char)
    requires a != [] && b != []
    ensures Join(a + b, sep) == Join(a, sep) + [sep] + Join(b, sep)
  {
    if |a| == 1 {
      assert (a + b)[1..] == b;
    } else {
      assert (a + b)[0] == a[0] && (a + b)[1..] == a[1..] + b;
      JoinConcat(a[1..], b, sep);
    }
  }

  /** A string splits into one piece more than it has separators. */
  lemma {:induction false} SplitCount(s: string, sep: char)
    ensures |Split(s, sep)| == 1 + multiset(s)[sep]
  {
    if s != [] {
      SplitCount(s[1..], sep);
      assert s == [s[0]] + s[1..];
    }
  }

  /** Splitting two strings joined by the separator splits each of them. */
  lemma {:induction false} SplitConcat(s: string, t: string, sep: char)
    ensures Split(s + [sep] + t, sep) == Split(s, sep) + Split(t, sep)
  {
    var u := s + [sep] + t;
    if s == [] {
      assert u == [sep] + t && u[1..] == t;
    } else {
      assert u[0] == s[0] && u[1..] == s[1..] + [sep] + t;
      SplitConcat(s[1..], t, sep);
      var rest := Split(s[1..], sep);
      if s[0] == sep {
        assert Split(u, sep) == [""] + (rest + Split(t, sep));
      } else {
        assert (rest + Split(t, sep))[0] == rest[0];
        assert (rest + Split(t, sep))[1..] == rest[1..] + Split(t, sep);
      }
    }
  }

  // ---------------------------------------------------------------------------
  // Integers: int.Parse and the "0" / "00" formats

  datatype ParseError = FormatError | OverflowError

  predicate AllDigits(s: string) { forall k :: 0 <= k < |s| ==> IsDigit(s[k]) }

  /** The value of a string of decimal digits; leading zeros do not count. */
  function DigitsValue(s: string): (n: nat)
    requires AllDigits(s)
  {
    if s == [] then 0 else DigitsValue(s[..|s| - 1]) * 10 + (s[|s| - 1] as int - '0' as int)
  }

  lemma {:induction false} DigitsValueLeadingZero(s: string)
    requires AllDigits(s)
    ensures DigitsValue("0" + s) == DigitsValue(s)
  {
    if s != [] {
      assert ("0" + s)[..|s|] == "0" + s[..|s| - 1];
      DigitsValueLeadingZero(s[..|s| - 1]);
    }
  }

  /** White space that `int.Parse` skips around a number. */
  predicate IsNumberWhite(c: char) { c == ' ' || ('\t' <= c <= '\r') }

  function DropNumberWhite(s: string): (r: string)
    ensures |r| <= |s|
  {
    if s != [] && IsNumberWhite(s[0]) then DropNumberWhite(s[1..]) else s
  }

  function DropNumberWhiteEnd(s: string): (r: string)
    ensures |r| <= |s|
  {
    if s != [] && IsNumberWhite(s[|s| - 1]) then DropNumberWhiteEnd(s[..|s| - 1]) else s
  }

  /** `int.Parse(s)`: optional white space, an optional sign, one or more digits,
      optional white space; `FormatError` otherwise, `OverflowError` outside Int32. */
  function ParseInt(s: string): (r: Result<int, ParseError>)
    ensures r.Ok? ==> IntMin <= r.value <= IntMax
    ensures s == [] ==> r == Err(FormatError)
  {
    var t := DropNumberWhiteEnd(DropNumberWhite(s));
    var negative := t != [] && t[0] == '-';
    var body := if t != [] && (t[0] == '-' || t[0] == '+') then t[1..] else t;
    if body == [] || !AllDigits(body) then Err(FormatError)
    else
      var v: int := if negative then -(DigitsValue(body) as int) else DigitsValue(body);
      if IntMin <= v <= IntMax then Ok(v) else Err(OverflowError)
  }

  predicate AllNumberWhite(s: string) { forall k :: 0 <= k < |s| ==> IsNumberWhite(s[k]) }

  /** Leading white space is dropped up to the first other character. */
  lemma {:induction false} DropNumberWhitePadding(w: string, x: string)
    requires AllNumberWhite(w)
    requires x == [] || !IsNumberWhite(x[0])
    ensures DropNumberWhite(w + x) == x
  {
    if w == [] {
      assert w + x == x;
    } else {
      assert (w + x)[1..] == w[1..] + x;
      DropNumberWhitePadding(w[1..], x);
    }
  }

  /** Trailing white space is dropped back to the last other character. */
  lemma {:induction false} DropNumberWhiteEndPadding(x: string, w: string)
    requires AllNumberWhite(w)
    requires x == [] || !IsNumberWhite(x[|x| - 1])
    ensures DropNumberWhiteEnd(x + w) == x
  {
    if w == [] {
      assert x + w == x;
    } else {
      assert (x + w)[..|x + w| - 1] == x + w[..|w| - 1];
      DropNumberWhiteEndPadding(x, w[..|w| - 1]);
    }
  }

  /** Dropping white space keeps every other character. */
  lemma {:induction false} DropNumberWhiteKeeps(s: string, c: char)
    requires c in s && !IsNumberWhite(c)
    ensures c in DropNumberWhite(s)
  {
    if IsNumberWhite(s[0]) {
      DropNumberWhiteKeeps(s[1..], c);
    }
  }

  lemma {:induction false} DropNumberWhiteEndKeeps(s: string, c: char)
    requires c in s && !IsNumberWhite(c)
    ensures c in DropNumberWhiteEnd(s)
  {
    if IsNumberWhite(s[|s| - 1]) {
      assert c in s[..|s| - 1];
      DropNumberWhiteEndKeeps(s[..|s| - 1], c);
    }
  }

  /** A number with white space around it and an optional sign parses to its
      value, or to `OverflowError` outside Int32. */
  lemma ParsePaddedNumber(w1: string, sign: string, digits: string, w2: string)
    requires AllNumberWhite(w1) && AllNumberWhite(w2)
    requires sign == "" || sign == "-" || sign == "+"
    requires digits != [] && AllDigits(digits)
    ensures var v := if sign == "-" then -(DigitsValue(digits) as int) else DigitsValue(digits);
      ParseInt(w1 + sign + digits + w2) == if IntMin <= v <= IntMax then Ok(v) else Err(OverflowError)
  {
    var x := sign + digits;
    assert DropNumberWhiteEnd(DropNumberWhite(w1 + sign + digits + w2)) == x by {
      assert w1 + sign + digits + w2 == w1 + (x + w2);
      assert x[0] == (if sign == "" then digits[0] else sign[0]);
      DropNumberWhitePadding(w1, x + w2);
      assert x[|x| - 1] == digits[|digits| - 1];
      DropNumberWhiteEndPadding(x, w2);
    }
    assert (if x != [] && (x[0] == '-' || x[0] == '+') then x[1..] else x) == digits by {
      if sign != "" {
        assert x[1..] == digits;
      } else {
        assert x == digits;
      }
    }
  }

  /** A character that is neither white space, a sign nor a digit makes the
      text no integer. */
  lemma ParseRejectsOtherCharacter(s: string, c: char)
    requires c in s && !IsNumberWhite(c) && !IsDigit(c) && c != '-' && c != '+'
    ensures ParseInt(s) == Err(FormatError)
  {
    DropNumberWhiteKeeps(s, c);
    DropNumberWhiteEndKeeps(DropNumberWhite(s), c);
    var t := DropNumberWhiteEnd(DropNumberWhite(s));
    var body := if t != [] && (t[0] == '-' || t[0] == '+') then t[1..] else t;
    assert c in body by {
      if body != t {
        assert t == [t[0]] + t[1..];
      }
    }
  }

  /** Text of white space only is no integer. */
  lemma ParseRejectsBlank(s: string)
    requires AllNumberWhite(s)
    ensures ParseInt(s) == Err(FormatError)
  {
    DropNumberWhitePadding(s, []);
    assert s + [] == s;
  }

  function DigitChar(d: nat): (c: char)
    requires d < 10
    ensures IsDigit(c) && c as int - '0' as int == d
  {
    ('0' as int + d) as char
  }

  /** `n.ToString("0")`: the decimal digits of `n`, without padding. */
  function FormatDecimal(n: nat): (r: string)
    ensures r != [] && AllDigits(r)
    ensures DigitsValue(r) == n
  {
    if n < 10 then [DigitChar(n)]
    else
      var r := FormatDecimal(n / 10) + [DigitChar(n % 10)];
      assert r[..|r| - 1] == FormatDecimal(n / 10);
      r
  }

  /** `n.ToString("00")`: the decimal digits of `n`, padded to two with a zero. */
  function FormatTwoDigits(n: nat): (r: string)
    ensures |r| >= 2 && AllDigits(r)
    ensures DigitsValue(r) == n
  {
    if n < 10 then
      DigitsValueLeadingZero(FormatDecimal(n));
      "0" + FormatDecimal(n)
    else
      FormatDecimal(n)
  }

  lemma ParseDigits(s: string)
    requires s != [] && AllDigits(s)
    ensures DigitsValue(s) <= IntMax ==> ParseInt(s) == Ok(DigitsValue(s))
    ensures DigitsValue(s) > IntMax ==> ParseInt(s) == Err(OverflowError)
  {
    assert !IsNumberWhite(s[0]) && !IsNumberWhite(s[|s| - 1]);
  }

  /** Both renderings of a number that `int.Parse` can produce parse back to it. */
  lemma FormatParseRoundTrip(n: nat)
    requires n <= IntMax
    ensures ParseInt(FormatDecimal(n)) == Ok(n)
    ensures ParseInt(FormatTwoDigits(n)) == Ok(n)
  {
    ParseDigits(FormatDecimal(n));
    ParseDigits(FormatTwoDigits(n));
  }
}
