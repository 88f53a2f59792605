/** The string library of the matching engine: the allowed-symbol set, the
    canonicity and extravagance scores, edit distance, run tokenization,
    common tokens and the longest common prefix. */
module StringUtils {
  import opened Wrappers
  import opened Seqs
  import opened Text

  // ---------------------------------------------------------------------------
  // The allowed-symbol set

  /** The symbols kept when a name is simplified into a search query. */
  predicate IsCommonSymbol(c: char)
  {
    IsDigit(c) || IsLetter(c) || c in " .,!?'()[]"
  }

  /** The ten digits, then each English letter followed by its capital, then
      space and `. , ! ? ' ( ) [ ]`. */
  function GetCommonSymbols(): (symbols: seq<char>)
    ensures |symbols| == 72
    ensures forall c :: c in symbols <==> IsCommonSymbol(c)
    ensures forall i, j :: 0 <= i < j < |symbols| ==> symbols[i] != symbols[j]
  {
    var digits := seq(10, i requires 0 <= i < 10 => ('0' as int + i) as char);
    var letters := seq(52, i requires 0 <= i < 52 =>
      if i % 2 == 0 then ('a' as int + i / 2) as char else ('A' as int + i / 2) as char);
    var symbols := digits + letters + " .,!?'()[]";
    assert forall c | IsDigit(c) :: symbols[c as int - '0' as int] == c;
    assert forall c | IsLower(c) :: symbols[10 + 2 * (c as int - 'a' as int)] == c;
    assert forall c | IsUpper(c) :: symbols[11 + 2 * (c as int - 'A' as int)] == c;
    symbols
  }

  // ---------------------------------------------------------------------------
  // Canonicity and extravagance

  /** Every character is a lower-case letter; true of the empty word. */
  predicate AllLower(w: string) { forall i :: 0 <= i < |w| ==> IsLower(w[i]) }

  /** Every character is an upper-case letter; true of the empty word. */
  predicate AllUpper(w: string) { forall i :: 0 <= i < |w| ==> IsUpper(w[i]) }

  /** Neither an English letter, a digit, a punctuation mark nor a space. */
  predicate IsBadChar(c: char)
  {
    !IsLetter(c) && !IsDigit(c) && !IsPunctuation(c) && c != ' '
  }

  /** The penalty of one character: -100 for a bad character, -1 for
      `. , ! ? ( )`, -5 for any other punctuation mark. */
  function CharValue(c: char): (v: int)
    ensures -100 <= v <= 0
    ensures v == 0 <==> IsLetter(c) || IsDigit(c) || c == ' '
    ensures IsBadChar(c) ==> v == -100
    ensures c in ".,!?()" ==> v == -1
    ensures IsPunctuation(c) && c !in ".,!?()" ==> v == -5
  {
    (if IsBadChar(c) then -100 else 0)
    + (if !IsPunctuation(c) then 0 else if c in ".,!?()" then -1 else -5)
  }

  /** The sum of the character penalties of `s`. */
  function CharValuesSum(s: string): (v: int)
    ensures -100 * |s| <= v <= 0
    ensures v == 0 <==> forall i :: 0 <= i < |s| ==> CharValue(s[i]) == 0
  {
    if s == [] then 0
    else
      var v := CharValue(s[0]) + CharValuesSum(s[1..]);
      assert forall i :: 1 <= i < |s| ==> s[i] == s[1..][i - 1];
      v
  }

  lemma {:induction false} CharValuesSumAppend(s: string, t: string)
    ensures CharValuesSum(s + t) == CharValuesSum(s) + CharValuesSum(t)
  {
    if s == [] {
      assert s + t == t;
    } else {
      assert (s + t)[1..] == s[1..] + t;
      CharValuesSumAppend(s[1..], t);
    }
  }

  /** `MeasureStringCanonicity`: -1 per all-lower-case word, -3 per all-upper-case
      word (an empty word is both) and the character penalties. */
  function MeasureStringCanonicity(s: string): (r: int)
    ensures r <= 0
  {
    var words := Split(s, ' ');
    |Filter(words, AllLower)| * -1 + |Filter(words, AllUpper)| * -3 + CharValuesSum(s)
  }

  /** No space-separated word is all-lower or all-upper case (so none is empty)
      and every character is an English letter, a digit or a space. */
  predicate IsCanonical(s: string)
  {
    var words := Split(s, ' ');
    && (forall k :: 0 <= k < |words| ==> !AllLower(words[k]) && !AllUpper(words[k]))
    && (forall i :: 0 <= i < |s| ==> IsLetter(s[i]) || IsDigit(s[i]) || s[i] == ' ')
  }

  /** The score is 0 exactly for canonical text. */
  lemma CanonicityZero(s: string)
    ensures MeasureStringCanonicity(s) == 0 <==> IsCanonical(s)
  {
    var words := Split(s, ' ');
    FilterEmpty(words, AllLower);
    FilterEmpty(words, AllUpper);
    forall i | 0 <= i < |s| ensures CharValue(s[i]) == 0 <==> IsLetter(s[i]) || IsDigit(s[i]) || s[i] == ' ' {
    }
  }

  /** The score of two texts joined by a space is the sum of their scores. */
  lemma CanonicityOfSpaceJoin(s: string, t: string)
    ensures MeasureStringCanonicity(s + " " + t) == MeasureStringCanonicity(s) + MeasureStringCanonicity(t)
  {
    SplitConcat(s, t, ' ');
    FilterAppend(Split(s, ' '), Split(t, ' '), AllLower);
    FilterAppend(Split(s, ' '), Split(t, ' '), AllUpper);
    CharValuesSumAppend(s, " " + t);
    CharValuesSumAppend(" ", t);
    assert s + " " + t == s + (" " + t);
  }

  /** The score of a single word. */
  lemma CanonicityOfWord(w: string)
    requires ' ' !in w
    ensures MeasureStringCanonicity(w) ==
      (if AllLower(w) then -1 else 0) + (if AllUpper(w) then -3 else 0) + CharValuesSum(w)
  {
    SplitJoin([w], ' ');
    assert Split(w, ' ') == [w];
  }

  /** The empty string is one empty word, which counts as both all-lower and
      all-upper case. */
  lemma CanonicityOfEmpty()
    ensures MeasureStringCanonicity("") == -4
  {
    CanonicityOfWord("");
  }

  /** A word of letters and digits only is charged for its case alone. */
  lemma CanonicityOfPlainWord(w: string)
    requires forall i :: 0 <= i < |w| ==> IsLetter(w[i]) || IsDigit(w[i])
    ensures MeasureStringCanonicity(w) == (if AllLower(w) then -1 else 0) + (if AllUpper(w) then -3 else 0)
  {
    CanonicityOfWord(w);
  }

  lemma CanonicityOfShouting()
    ensures MeasureStringCanonicity("HELLO") == -3
  {
    var w := "HELLO";
    assert AllUpper(w) && !AllLower(w) && forall i :: 0 <= i < |w| ==> IsLetter(w[i]) by {
      assert !IsLower(w[0]);
    }
    CanonicityOfPlainWord(w);
  }

  lemma CanonicityOfTitleCase(w1: string, w2: string)
    requires w1 == "Hello" && w2 == "World"
    ensures MeasureStringCanonicity(w1 + " " + w2) == 0
  {
    assert !AllLower(w1) && !AllUpper(w1) && forall i :: 0 <= i < |w1| ==> IsLetter(w1[i]) by {
      assert !IsLower(w1[0]) && !IsUpper(w1[1]);
    }
    assert !AllLower(w2) && !AllUpper(w2) && forall i :: 0 <= i < |w2| ==> IsLetter(w2[i]) by {
      assert !IsLower(w2[0]) && !IsUpper(w2[1]);
    }
    CanonicityOfPlainWord(w1);
    CanonicityOfPlainWord(w2);
    CanonicityOfSpaceJoin(w1, w2);
  }

  /** A comma costs 1; the lone lower-case word `b` costs 1 more. */
  lemma CanonicityOfPunctuation(w1: string, w2: string)
    requires w1 == "a," && w2 == "b"
    ensures MeasureStringCanonicity(w1 + " " + w2) == -2
  {
    assert MeasureStringCanonicity(w1) == -1 by {
      assert |w1| == 2 && w1[0] == 'a' && w1[1] == ',';
      CanonicityOfWord(w1);
      assert !AllLower(w1) && !AllUpper(w1) by {
        assert !IsLower(w1[1]) && !IsUpper(w1[0]);
      }
      assert CharValue(',') == -1;
      assert CharValuesSum(w1) == CharValue('a') + CharValue(',') by {
        assert w1[1..] == [','] && w1[1..][1..] == [];
      }
    }
    assert MeasureStringCanonicity(w2) == -1 by {
      assert |w2| == 1 && w2[0] == 'b';
      assert AllLower(w2) && !AllUpper(w2);
      CanonicityOfPlainWord(w2);
    }
    CanonicityOfSpaceJoin(w1, w2);
  }

  /** `MeasureStringExtravagance`: how many characters are not common symbols;
      0 exactly when all are. */
  function MeasureStringExtravagance(str: string): (r: int)
    ensures 0 <= r <= |str|
    ensures r == |Filter(str, c => !IsCommonSymbol(c))|
    ensures r == 0 <==> forall i :: 0 <= i < |str| ==> IsCommonSymbol(str[i])
  {
    var commonSymbols := GetCommonSymbols();
    FilterCongruent(str, c => c in commonSymbols, IsCommonSymbol);
    FilterComplement(str, IsCommonSymbol, c => !IsCommonSymbol(c));
    FilterEmpty(str, c => !IsCommonSymbol(c));
    |str| - |Filter(str, c => c in commonSymbols)|
  }

  // ---------------------------------------------------------------------------
  // Edit distance

  /** The .NET runtime's largest string length. */
  const MaxStringLength := 0x3FFF_FFDF

  /** The cell type of the distance table: a 32-bit signed integer. */
  newtype Int32 = x: int | IntMin <= x <= IntMax

  function Min(x: int, y: int): int { if x <= y then x else y }

  /** The recurrence gives the same value when its first two arguments are
      swapped. */
  lemma SwappedStep(d: int, e: int, x: int, y: int, z: int, c: int, x': int, y': int, z': int, c': int)
    requires d == Min(Min(x + 1, y + 1), z + c)
    requires e == Min(Min(y' + 1, x' + 1), z' + c')
    requires x == x' && y == y' && z == z' && c == c'
    ensures d == e
  {
  }

  /** The cost of turning `a[i]` into `b[j]`. */
  function Cost(a: string, b: string, i: nat, j: nat): nat
    requires i < |a| && j < |b|
  {
    if a[i] == b[j] then 0 else 1
  }

  /** The unit-cost edit distance between `a[..i]` and `b[..j]`. */
  function Distance(a: string, b: string, i: nat, j: nat): (d: nat)
    requires i <= |a| && j <= |b|
    decreases i + j
  {
    if i == 0 then j
    else if j == 0 then i
    else Min(Min(Distance(a, b, i - 1, j) + 1, Distance(a, b, i, j - 1) + 1),
             Distance(a, b, i - 1, j - 1) + Cost(a, b, i - 1, j - 1))
  }

  /** The edit distance between `a` and `b`. */
  function EditDistance(a: string, b: string): nat
  {
    Distance(a, b, |a|, |b|)
  }

  /** The distance between prefixes is at least the difference of their
      lengths and at most the larger length. */
  lemma {:induction false} DistanceBounds(a: string, b: string, i: nat, j: nat)
    requires i <= |a| && j <= |b|
    ensures i - j <= Distance(a, b, i, j) && j - i <= Distance(a, b, i, j)
    ensures Distance(a, b, i, j) <= if i >= j then i else j
    decreases i + j
  {
    if i > 0 && j > 0 {
      var x, y, z := Distance(a, b, i - 1, j), Distance(a, b, i, j - 1), Distance(a, b, i - 1, j - 1);
      var c := Cost(a, b, i - 1, j - 1);
      assert Distance(a, b, i, j) == Min(Min(x + 1, y + 1), z + c);
      DistanceBounds(a, b, i - 1, j);
      DistanceBounds(a, b, i, j - 1);
      DistanceBounds(a, b, i - 1, j - 1);
    }
  }

  /** One step of the recurrence. */
  lemma DistanceStep(a: string, b: string, i: nat, j: nat)
    requires 0 < i <= |a| && 0 < j <= |b|
    ensures Distance(a, b, i, j) == Min(Min(Distance(a, b, i - 1, j) + 1, Distance(a, b, i, j - 1) + 1),
                                        Distance(a, b, i - 1, j - 1) + Cost(a, b, i - 1, j - 1))
  {
  }

  /** The distance is symmetric. */
  lemma {:induction false} DistanceSymmetric(a: string, b: string, i: nat, j: nat)
    requires i <= |a| && j <= |b|
    ensures Distance(a, b, i, j) == Distance(b, a, j, i)
    decreases i + j
  {
    if i > 0 && j > 0 {
      assert Distance(a, b, i - 1, j) == Distance(b, a, j, i - 1) by { DistanceSymmetric(a, b, i - 1, j); }
      assert Distance(a, b, i, j - 1) == Distance(b, a, j - 1, i) by { DistanceSymmetric(a, b, i, j - 1); }
      assert Distance(a, b, i - 1, j - 1) == Distance(b, a, j - 1, i - 1) by { DistanceSymmetric(a, b, i - 1, j - 1); }
      SymmetricStep(a, b, i, j);
    }
  }

  /** Symmetry at `(i, j)` from symmetry at the three predecessors. */
  lemma SymmetricStep(a: string, b: string, i: nat, j: nat)
    requires 0 < i <= |a| && 0 < j <= |b|
    requires Distance(a, b, i - 1, j) == Distance(b, a, j, i - 1)
    requires Distance(a, b, i, j - 1) == Distance(b, a, j - 1, i)
    requires Distance(a, b, i - 1, j - 1) == Distance(b, a, j - 1, i - 1)
    ensures Distance(a, b, i, j) == Distance(b, a, j, i)
  {
    var x, y, z, c := Distance(a, b, i - 1, j), Distance(a, b, i, j - 1), Distance(a, b, i - 1, j - 1), Cost(a, b, i - 1, j - 1);
    var x', y', z', c' := Distance(b, a, j, i - 1), Distance(b, a, j - 1, i), Distance(b, a, j - 1, i - 1), Cost(b, a, j - 1, i - 1);
    assert Distance(a, b, i, j) == Min(Min(x + 1, y + 1), z + c) by { DistanceStep(a, b, i, j); }
    assert Distance(b, a, j, i) == Min(Min(y' + 1, x' + 1), z' + c') by { DistanceStep(b, a, j, i); }
    SwappedStep(Distance(a, b, i, j), Distance(b, a, j, i), x, y, z, c, x', y', z', c');
  }

  /** The distance is zero exactly between equal prefixes. */
  lemma {:induction false} DistanceZero(a: string, b: string, i: nat, j: nat)
    requires i <= |a| && j <= |b|
    ensures Distance(a, b, i, j) == 0 <==> i == j && a[..i] == b[..j]
    decreases i + j
  {
    if i > 0 && j > 0 {
      DistanceZero(a, b, i - 1, j - 1);
      assert a[..i] == a[..i - 1] + [a[i - 1]];
      assert b[..j] == b[..j - 1] + [b[j - 1]];
      if Distance(a, b, i, j) == 0 {
        assert Distance(a, b, i - 1, j - 1) + Cost(a, b, i - 1, j - 1) == 0;
      }
    }
  }

  /** `d(a, a) == 0`, `d(a, b) == d(b, a)`, `d("", b) == |b|` and
      `||a| - |b|| <= d(a, b) <= max(|a|, |b|)`; `d(a, b) == 0` only when `a == b`. */
  lemma EditDistanceProperties(a: string, b: string)
    ensures EditDistance(a, a) == 0
    ensures EditDistance(a, b) == EditDistance(b, a)
    ensures EditDistance("", b) == |b|
    ensures |a| - |b| <= EditDistance(a, b) && |b| - |a| <= EditDistance(a, b)
    ensures EditDistance(a, b) <= if |a| >= |b| then |a| else |b|
    ensures EditDistance(a, b) == 0 <==> a == b
  {
    DistanceZero(a, a, |a|, |a|);
    DistanceZero(a, b, |a|, |b|);
    DistanceSymmetric(a, b, |a|, |b|);
    DistanceBounds(a, b, |a|, |b|);
    assert a[..|a|] == a && b[..|b|] == b;
  }

  /** Row-major order: cell `(p, q)` is relaxed before the cursor `(i, j)`. */
  ghost predicate Done(p: nat, q: nat, i: nat, j: nat)
  {
    p < i || (p == i && q < j)
  }

  /** What the table holds at `(p, q)` once every cell before the cursor has
      been relaxed: `int.MaxValue` lowered by each predecessor already relaxed. */
  ghost function Relaxed(a: string, b: string, p: nat, q: nat, i: nat, j: nat): int
    requires p <= |a| && q <= |b|
  {
    if p == 0 && q == 0 then 0
    else
      var up := if p > 0 && Done(p - 1, q, i, j) then Distance(a, b, p - 1, q) + 1 else IntMax;
      var left := if q > 0 && Done(p, q - 1, i, j) then Distance(a, b, p, q - 1) + 1 else IntMax;
      var diag := if p > 0 && q > 0 && Done(p - 1, q - 1, i, j)
        then Distance(a, b, p - 1, q - 1) + Cost(a, b, p - 1, q - 1) else IntMax;
      Min(Min(IntMax, up), Min(left, diag))
  }

  /** A cell whose predecessors are all relaxed holds the distance. */
  lemma RelaxedFinal(a: string, b: string, p: nat, q: nat, i: nat, j: nat)
    requires p <= |a| && q <= |b| && |a| <= MaxStringLength && |b| <= MaxStringLength
    requires p > 0 ==> Done(p - 1, q, i, j)
    requires q > 0 ==> Done(p, q - 1, i, j)
    requires p > 0 && q > 0 ==> Done(p - 1, q - 1, i, j)
    ensures Relaxed(a, b, p, q, i, j) == Distance(a, b, p, q) <= MaxStringLength
  {
    DistanceAtMost(a, b, p, q);
    if p > 0 && q > 0 {
      RelaxedInner(a, b, p, q, i, j);
    }
  }

  /** The distance between prefixes of strings .NET can hold fits in a table cell. */
  lemma DistanceAtMost(a: string, b: string, p: nat, q: nat)
    requires p <= |a| && q <= |b| && |a| <= MaxStringLength && |b| <= MaxStringLength
    ensures Distance(a, b, p, q) <= MaxStringLength
  {
    DistanceBounds(a, b, p, q);
  }

  /** A cell whose three predecessors are relaxed holds the least of their pushes. */
  lemma RelaxedStep(a: string, b: string, p: nat, q: nat, i: nat, j: nat)
    requires 0 < p <= |a| && 0 < q <= |b|
    requires Done(p - 1, q, i, j) && Done(p, q - 1, i, j) && Done(p - 1, q - 1, i, j)
    ensures Relaxed(a, b, p, q, i, j) == Min(Min(IntMax, Distance(a, b, p - 1, q) + 1),
                                             Min(Distance(a, b, p, q - 1) + 1, Distance(a, b, p - 1, q - 1) + Cost(a, b, p - 1, q - 1)))
  {
  }

  /** `RelaxedFinal` for a cell with all three predecessors. */
  lemma RelaxedInner(a: string, b: string, p: nat, q: nat, i: nat, j: nat)
    requires 0 < p <= |a| && 0 < q <= |b| && |a| <= MaxStringLength && |b| <= MaxStringLength
    requires Done(p - 1, q, i, j) && Done(p, q - 1, i, j) && Done(p - 1, q - 1, i, j)
    ensures Relaxed(a, b, p, q, i, j) == Distance(a, b, p, q)
  {
    var x, y, z := Distance(a, b, p - 1, q), Distance(a, b, p, q - 1), Distance(a, b, p - 1, q - 1);
    var c := Cost(a, b, p - 1, q - 1);
    assert x <= MaxStringLength by { DistanceAtMost(a, b, p - 1, q); }
    assert y <= MaxStringLength by { DistanceAtMost(a, b, p, q - 1); }
    assert z <= MaxStringLength by { DistanceAtMost(a, b, p - 1, q - 1); }
    assert Distance(a, b, p, q) == Min(Min(x + 1, y + 1), z + c) by { DistanceStep(a, b, p, q); }
    assert Relaxed(a, b, p, q, i, j) == Min(Min(IntMax, x + 1), Min(y + 1, z + c)) by { RelaxedStep(a, b, p, q, i, j); }
    RelaxedIsStep(Relaxed(a, b, p, q, i, j), Distance(a, b, p, q), x, y, z, c);
  }

  /** Below `int.MaxValue`, the relaxed minimum is the recurrence's minimum. */
  lemma RelaxedIsStep(r: int, d: int, x: int, y: int, z: int, c: int)
    requires x <= MaxStringLength
    requires y <= MaxStringLength
    requires z <= MaxStringLength
    requires 0 <= c <= 1
    requires r == Min(Min(IntMax, x + 1), Min(y + 1, z + c))
    requires d == Min(Min(x + 1, y + 1), z + c)
    ensures r == d
  {
  }

  /** Relaxing cell `(i, j)` lowers the cell below it and the cell to its right. */
  lemma RelaxStepNeighbour(a: string, b: string, p: nat, q: nat, i: nat, j: nat)
    requires p <= |a| && q <= |b| && i <= |a| && j <= |b|
    requires (p == i + 1 && q == j) || (p == i && q == j + 1)
    ensures Relaxed(a, b, p, q, i, j + 1) == Min(Relaxed(a, b, p, q, i, j), Distance(a, b, i, j) + 1)
  {
  }

  /** Relaxing cell `(i, j)` lowers its diagonal neighbour. */
  lemma RelaxStepDiagonal(a: string, b: string, p: nat, q: nat, i: nat, j: nat)
    requires p <= |a| && q <= |b| && i <= |a| && j <= |b|
    requires p == i + 1 && q == j + 1
    ensures Relaxed(a, b, p, q, i, j + 1) == Min(Relaxed(a, b, p, q, i, j), Distance(a, b, i, j) + Cost(a, b, i, j))
  {
  }

  /** Relaxing cell `(i, j)` leaves the expected value of every cell but its
      three successors alone. */
  lemma RelaxStepOther(a: string, b: string, p: nat, q: nat, i: nat, j: nat)
    requires p <= |a| && q <= |b| && i <= |a| && j <= |b|
    requires !((p == i + 1 && q == j) || (p == i && q == j + 1) || (p == i + 1 && q == j + 1))
    ensures Relaxed(a, b, p, q, i, j + 1) == Relaxed(a, b, p, q, i, j)
  {
  }

  /** The end of a row is the start of the next one. */
  lemma RelaxedRowEnd(a: string, b: string, p: nat, q: nat, i: nat)
    requires p <= |a| && q <= |b|
    ensures Relaxed(a, b, p, q, i, |b| + 1) == Relaxed(a, b, p, q, i + 1, 0)
  {
  }

  /** The used part of table `m` holds the expected values for cursor `(i, j)`. */
  ghost predicate Table(m: array2<Int32>, a: string, b: string, i: nat, j: nat)
    reads m
  {
    && m.Length0 == |a| + 2 && m.Length1 == |b| + 2
    && forall p, q :: 0 <= p <= |a| && 0 <= q <= |b| ==> m[p, q] as int == Relaxed(a, b, p, q, i, j)
  }

  /** The cell that cell `(i, j)` pushes to in its `k`-th push: down, right, diagonal. */
  ghost predicate IsTarget(p: nat, q: nat, i: nat, j: nat, k: nat)
  {
    (k == 0 && p == i + 1 && q == j) || (k == 1 && p == i && q == j + 1) || (k == 2 && p == i + 1 && q == j + 1)
  }

  /** What cell `(p, q)` holds once cell `(i, j)` has made the first `k` of its
      three pushes. */
  ghost function Pushed(a: string, b: string, p: nat, q: nat, i: nat, j: nat, k: nat): int
    requires p <= |a| && q <= |b| && i <= |a| && j <= |b|
  {
    var cost := if i < |a| && j < |b| then Cost(a, b, i, j) else 0;
    PushOnto(Relaxed(a, b, p, q, i, j), Distance(a, b, i, j), cost, p, q, i, j, k)
  }

  /** Cell `(p, q)` holding `before`, after the first `k` pushes of a cell `(i, j)`
      at distance `dist` whose diagonal step costs `cost`. */
  function PushOnto(before: int, dist: int, cost: int, p: nat, q: nat, i: nat, j: nat, k: nat): int
  {
    if k >= 1 && p == i + 1 && q == j then Min(before, dist + 1)
    else if k >= 2 && p == i && q == j + 1 then Min(before, dist + 1)
    else if k >= 3 && p == i + 1 && q == j + 1 then Min(before, dist + cost)
    else before
  }

  /** The `k`-th push changes its target only. */
  lemma PushOntoStep(before: int, dist: int, cost: int, p': nat, q': nat, i: nat, j: nat, k: nat, p: nat, q: nat)
    requires IsTarget(p, q, i, j, k)
    ensures PushOnto(before, dist, cost, p', q', i, j, k + 1) ==
      if p' == p && q' == q
      then Min(PushOnto(before, dist, cost, p', q', i, j, k), dist + (if k < 2 then 1 else cost))
      else PushOnto(before, dist, cost, p', q', i, j, k)
  {
  }

  /** All three pushes of `(i, j)` made, the table is as expected for the next cursor. */
  lemma PushedAll(a: string, b: string, p: nat, q: nat, i: nat, j: nat)
    requires p <= |a| && q <= |b| && i <= |a| && j <= |b|
    ensures Pushed(a, b, p, q, i, j, 3) == Relaxed(a, b, p, q, i, j + 1)
  {
    var before := Relaxed(a, b, p, q, i, j);
    if (p == i + 1 && q == j) || (p == i && q == j + 1) {
      assert Pushed(a, b, p, q, i, j, 3) == Min(before, Distance(a, b, i, j) + 1);
      RelaxStepNeighbour(a, b, p, q, i, j);
    } else if p == i + 1 && q == j + 1 {
      assert Pushed(a, b, p, q, i, j, 3) == Min(before, Distance(a, b, i, j) + Cost(a, b, i, j));
      RelaxStepDiagonal(a, b, p, q, i, j);
    } else {
      assert Pushed(a, b, p, q, i, j, 3) == before;
      RelaxStepOther(a, b, p, q, i, j);
    }
  }

  /** The `k`-th push of `(i, j)` changes its target only. */
  lemma PushedStep(a: string, b: string, p': nat, q': nat, i: nat, j: nat, k: nat, p: nat, q: nat)
    requires p' <= |a| && q' <= |b| && i <= |a| && j <= |b|
    requires IsTarget(p, q, i, j, k) && (k == 2 ==> i < |a| && j < |b|)
    ensures Pushed(a, b, p', q', i, j, k + 1) ==
      if p' == p && q' == q
      then Min(Pushed(a, b, p', q', i, j, k), Distance(a, b, i, j) + (if k < 2 then 1 else Cost(a, b, i, j)))
      else Pushed(a, b, p', q', i, j, k)
  {
    var before, dist := Relaxed(a, b, p', q', i, j), Distance(a, b, i, j);
    var cost := if i < |a| && j < |b| then Cost(a, b, i, j) else 0;
    assert Pushed(a, b, p', q', i, j, k + 1) == PushOnto(before, dist, cost, p', q', i, j, k + 1);
    assert Pushed(a, b, p', q', i, j, k) == PushOnto(before, dist, cost, p', q', i, j, k);
    PushOntoStep(before, dist, cost, p', q', i, j, k, p, q);
  }

  /** The used part of table `m` after the first `k` pushes of cell `(i, j)`. */
  ghost predicate Stage(m: array2<Int32>, a: string, b: string, i: nat, j: nat, k: nat)
    requires i <= |a| && j <= |b|
    reads m
  {
    && m.Length0 == |a| + 2 && m.Length1 == |b| + 2
    && forall p, q :: 0 <= p <= |a| && 0 <= q <= |b| ==> m[p, q] as int == Pushed(a, b, p, q, i, j, k)
  }

  /** `Up`: lower cell `(p, q)` to `v` if `v` is smaller. Here it is the `k`-th
      push of cell `(i, j)`, and `v` is that cell's distance plus the step's cost. */
  method Up(m: array2<Int32>, p: nat, q: nat, v: Int32, ghost a: string, ghost b: string, ghost i: nat, ghost j: nat, ghost k: nat)
    requires i <= |a| && j <= |b| && Stage(m, a, b, i, j, k)
    requires IsTarget(p, q, i, j, k) && (k == 2 ==> i < |a| && j < |b|)
    requires v as int == Distance(a, b, i, j) + (if k < 2 then 1 else Cost(a, b, i, j))
    modifies m
    ensures Stage(m, a, b, i, j, k + 1)
  {
    m[p, q] := if m[p, q] <= v then m[p, q] else v;
    forall p', q' | 0 <= p' <= |a| && 0 <= q' <= |b|
      ensures m[p', q'] as int == Pushed(a, b, p', q', i, j, k + 1)
    {
      PushedStep(a, b, p', q', i, j, k, p, q);
    }
  }

  /** One step of the nested loop: cell `(i, j)` is final and pushes to its
      lower, right and (inside the strings) diagonal neighbours. */
  method RelaxFrom(m: array2<Int32>, a: string, b: string, i: nat, j: nat)
    requires |a| <= MaxStringLength && |b| <= MaxStringLength
    requires i <= |a| && j <= |b|
    requires Table(m, a, b, i, j)
    modifies m
    ensures Table(m, a, b, i, j + 1)
  {
    RelaxedFinal(a, b, i, j, i, j);
    assert Stage(m, a, b, i, j, 0);
    var v := m[i, j];
    Up(m, i + 1, j, v + 1, a, b, i, j, 0);
    Up(m, i, j + 1, v + 1, a, b, i, j, 1);
    if i != |a| && j != |b| {
      Up(m, i + 1, j + 1, v + Cost(a, b, i, j) as Int32, a, b, i, j, 2);
    } else {
      assert Stage(m, a, b, i, j, 3);
    }
    forall p, q | 0 <= p <= |a| && 0 <= q <= |b|
      ensures m[p, q] as int == Relaxed(a, b, p, q, i, j + 1)
    {
      PushedAll(a, b, p, q, i, j);
    }
  }

  /** `CalculateLevenshteinDistance`: a table of `(|a| + 2) x (|b| + 2)` cells, the
      used part set to `int.MaxValue` but `(0, 0)` set to 0, relaxed forward in
      row-major order. Every cell read is already finite, so no `+ 1` overflows. */
  method CalculateLevenshteinDistance(a: string, b: string) returns (d: int)
    requires |a| <= MaxStringLength && |b| <= MaxStringLength
    ensures d == EditDistance(a, b)
  {
    var al := |a|;
    var bl := |b|;
    var m := new Int32[al + 2, bl + 2]((_, _) => 0);
    for i := 0 to al + 1
      invariant forall p, q :: 0 <= p < i && 0 <= q <= bl ==> m[p, q] == IntMax as Int32
    {
      for j := 0 to bl + 1
        invariant forall p, q :: (0 <= p < i && 0 <= q <= bl) || (p == i && 0 <= q < j) ==> m[p, q] == IntMax as Int32
      {
        m[i, j] := IntMax as Int32;
      }
    }
    m[0, 0] := 0;
    for i := 0 to al + 1
      invariant Table(m, a, b, i, 0)
    {
      for j := 0 to bl + 1
        invariant Table(m, a, b, i, j)
      {
        RelaxFrom(m, a, b, i, j);
      }
      forall p, q | 0 <= p <= al && 0 <= q <= bl
        ensures m[p, q] as int == Relaxed(a, b, p, q, i + 1, 0)
      {
        RelaxedRowEnd(a, b, p, q, i);
      }
    }
    d := m[al, bl] as int;
    RelaxedFinal(a, b, al, bl, al + 1, 0);
  }

  // ---------------------------------------------------------------------------
  // Maximal runs of characters

  /** The length of the run of group characters that `s` starts with. */
  function RunLength(s: string, inGroup: char -> bool): (n: nat)
    ensures n <= |s|
    ensures forall k :: 0 <= k < n ==> inGroup(s[k])
    ensures n == |s| || !inGroup(s[n])
  {
    if s != [] && inGroup(s[0]) then 1 + RunLength(s[1..], inGroup) else 0
  }

  /** The maximal runs of group characters of `s`, left to right. */
  function CharGroups(s: string, inGroup: char -> bool): (groups: seq<string>)
    ensures forall k :: 0 <= k < |groups| ==> groups[k] != []
    ensures forall k, i :: 0 <= k < |groups| && 0 <= i < |groups[k]| ==> inGroup(groups[k][i])
    decreases |s|
  {
    if s == [] then []
    else if !inGroup(s[0]) then CharGroups(s[1..], inGroup)
    else
      var n := RunLength(s, inGroup);
      [s[..n]] + CharGroups(s[n..], inGroup)
  }

  lemma {:induction false} RunLengthIs(s: string, inGroup: char -> bool, n: nat)
    requires n <= |s|
    requires forall k :: 0 <= k < n ==> inGroup(s[k])
    requires n == |s| || !inGroup(s[n])
    ensures RunLength(s, inGroup) == n
  {
    if n > 0 {
      RunLengthIs(s[1..], inGroup, n - 1);
    }
  }

  /** A character outside the group does not start a group. */
  lemma SkipOutsider(s: string, inGroup: char -> bool, i: nat)
    requires i < |s| && !inGroup(s[i])
    ensures CharGroups(s[i..], inGroup) == CharGroups(s[i + 1..], inGroup)
  {
    assert s[i..][1..] == s[i + 1..];
  }

  /** A run from `start` that ends at `i` is the first group of `s[start..]`. */
  lemma CloseGroup(s: string, inGroup: char -> bool, start: nat, i: nat)
    requires start < i <= |s|
    requires forall k :: start <= k < i ==> inGroup(s[k])
    requires i == |s| || !inGroup(s[i])
    ensures CharGroups(s[start..], inGroup) == [s[start..i]] + CharGroups(s[i..], inGroup)
  {
    var t := s[start..];
    RunLengthIs(t, inGroup, i - start);
    assert t[..i - start] == s[start..i];
    assert t[i - start..] == s[i..];
  }

  /** The state of `GetCharGroupsBy` after reading `s[..i]`: the groups
      `done` so far and, when a group is open since `start`, that group's
      characters; the rest of `s` from the open group, or from `i`, yields
      the remaining groups. */
  ghost predicate Scanned(s: string, inGroup: char -> bool, done: seq<string>, i: nat, start: int)
    requires i <= |s|
  {
    if start == -1 then done + CharGroups(s[i..], inGroup) == CharGroups(s, inGroup)
    else
      && 0 <= start < i
      && (forall k :: start <= k < i ==> inGroup(s[k]))
      && done + CharGroups(s[start..], inGroup) == CharGroups(s, inGroup)
  }

  /** A group character with no group open opens one. */
  lemma OpenStep(s: string, inGroup: char -> bool, done: seq<string>, i: nat)
    requires i < |s| && inGroup(s[i]) && Scanned(s, inGroup, done, i, -1)
    ensures Scanned(s, inGroup, done, i + 1, i)
  {
  }

  /** A group character extends the open group. */
  lemma ExtendStep(s: string, inGroup: char -> bool, done: seq<string>, i: nat, start: nat)
    requires i < |s| && inGroup(s[i]) && Scanned(s, inGroup, done, i, start)
    ensures Scanned(s, inGroup, done, i + 1, start)
  {
  }

  /** A character outside the group, with no group open, is passed over. */
  lemma SkipStep(s: string, inGroup: char -> bool, done: seq<string>, i: nat)
    requires i < |s| && !inGroup(s[i]) && Scanned(s, inGroup, done, i, -1)
    ensures Scanned(s, inGroup, done, i + 1, -1)
  {
    SkipOutsider(s, inGroup, i);
  }

  lemma Regroup(done: seq<string>, g: string, groups: seq<string>, rest: seq<string>, all: seq<string>)
    requires done + groups == all && groups == [g] + rest
    ensures (done + [g]) + rest == all
  {
  }

  /** A character outside the group closes the open group. */
  lemma CloseStep(s: string, inGroup: char -> bool, done: seq<string>, i: nat, start: nat)
    requires i < |s| && !inGroup(s[i]) && Scanned(s, inGroup, done, i, start)
    ensures Scanned(s, inGroup, done + [s[start..i]], i + 1, -1)
  {
    CloseGroup(s, inGroup, start, i);
    SkipOutsider(s, inGroup, i);
    Regroup(done, s[start..i], CharGroups(s[start..], inGroup), CharGroups(s[i + 1..], inGroup), CharGroups(s, inGroup));
  }

  /** At the end of the string the open group, if any, is the last group. */
  lemma FinishStep(s: string, inGroup: char -> bool, done: seq<string>, start: int)
    requires Scanned(s, inGroup, done, |s|, start)
    ensures start == -1 ==> done == CharGroups(s, inGroup)
    ensures start != -1 ==> 0 <= start < |s| && done + [s[start..|s|]] == CharGroups(s, inGroup)
  {
    if start == -1 {
      assert s[|s|..] == [];
    } else {
      CloseGroup(s, inGroup, start, |s|);
      assert s[|s|..] == [];
    }
  }

  /** `GetCharGroupsBy`: one pass over `str` that opens a group at the first
      group character and closes it at the next character outside the group. */
  method GetCharGroupsBy(str: string, isCharInGroup: char -> bool) returns (res: seq<string>)
    ensures res == CharGroups(str, isCharInGroup)
  {
    res := [];
    var groupStartIdx := -1;
    for i := 0 to |str|
      invariant groupStartIdx == -1 || 0 <= groupStartIdx < i
      invariant Scanned(str, isCharInGroup, res, i, groupStartIdx)
    {
      var isInGroup := isCharInGroup(str[i]);
      if isInGroup && groupStartIdx == -1 {
        OpenStep(str, isCharInGroup, res, i);
        groupStartIdx := i;
      } else if !isInGroup {
        if groupStartIdx != -1 {
          CloseStep(str, isCharInGroup, res, i, groupStartIdx);
          res := res + [str[groupStartIdx..i]];
          groupStartIdx := -1;
        } else {
          SkipStep(str, isCharInGroup, res, i);
        }
      } else {
        ExtendStep(str, isCharInGroup, res, i, groupStartIdx);
      }
    }
    FinishStep(str, isCharInGroup, res, groupStartIdx);
    if groupStartIdx != -1 {
      res := res + [str[groupStartIdx..|str|]];
    }
  }

  /** The groups, concatenated, are the group characters of `s` in order. */
  lemma {:induction false} CharGroupsFlatten(s: string, inGroup: char -> bool)
    ensures Flatten(CharGroups(s, inGroup)) == Filter(s, inGroup)
    decreases |s|
  {
    if s != [] {
      if !inGroup(s[0]) {
        CharGroupsFlatten(s[1..], inGroup);
      } else {
        var n := RunLength(s, inGroup);
        var g, t := s[..n], s[n..];
        var rest := CharGroups(t, inGroup);
        assert CharGroups(s, inGroup) == [g] + rest;
        assert Flatten([g] + rest) == g + Flatten(rest) by {
          assert ([g] + rest)[1..] == rest;
        }
        CharGroupsFlatten(t, inGroup);
        assert Filter(s, inGroup) == g + Filter(t, inGroup) by {
          assert s == g + t;
          FilterAppend(g, t, inGroup);
          FilterAll(g, inGroup);
        }
      }
    }
  }

  /** Maximality: the first group is the first maximal run, whatever precedes it
      outside the group and whatever follows it after a non-group character. */
  lemma {:induction false} FirstGroupIsFirstRun(pre: string, g: string, rest: string, inGroup: char -> bool)
    requires forall k :: 0 <= k < |pre| ==> !inGroup(pre[k])
    requires g != [] && forall k :: 0 <= k < |g| ==> inGroup(g[k])
    requires rest == [] || !inGroup(rest[0])
    ensures CharGroups(pre + g + rest, inGroup) == [g] + CharGroups(rest, inGroup)
    decreases |pre|
  {
    var s := pre + g + rest;
    if pre == [] {
      assert s == g + rest;
      RunLengthIs(s, inGroup, |g|);
      assert s[..|g|] == g && s[|g|..] == rest;
    } else {
      assert s[1..] == pre[1..] + g + rest;
      FirstGroupIsFirstRun(pre[1..], g, rest, inGroup);
    }
  }

  /** Groups joined by a separator outside the group split back into the same groups. */
  lemma {:induction false} CharGroupsOfJoin(groups: seq<string>, sep: char, inGroup: char -> bool)
    requires !inGroup(sep)
    requires forall k :: 0 <= k < |groups| ==> groups[k] != []
    requires forall k, i :: 0 <= k < |groups| && 0 <= i < |groups[k]| ==> inGroup(groups[k][i])
    ensures CharGroups(Join(groups, sep), inGroup) == groups
  {
    if |groups| == 1 {
      FirstGroupIsFirstRun("", groups[0], "", inGroup);
      assert "" + groups[0] + "" == groups[0];
    } else if |groups| > 1 {
      var tail := Join(groups[1..], sep);
      CharGroupsOfJoin(groups[1..], sep, inGroup);
      FirstGroupIsFirstRun("", groups[0], [sep] + tail, inGroup);
      assert "" + groups[0] + ([sep] + tail) == Join(groups, sep);
      SkipOutsider([sep] + tail, inGroup, 0);
      assert ([sep] + tail)[1..] == tail;
      assert groups == [groups[0]] + groups[1..];
    }
  }

  // ---------------------------------------------------------------------------
  // Tokens and digit groups

  /** A token: a non-empty run of lower-case letters and digits. */
  predicate IsToken(t: string)
  {
    t != [] && forall i :: 0 <= i < |t| ==> IsLower(t[i]) || IsDigit(t[i])
  }

  /** `SplitToTokens`: the runs of letters and digits, lower-cased. */
  function SplitToTokens(s: string): (tokens: seq<string>)
    ensures forall k :: 0 <= k < |tokens| ==> IsToken(tokens[k])
  {
    LowerAll(CharGroups(s, IsLetterOrDigit))
  }

  /** Each of the groups, lower-cased. */
  function LowerAll(groups: seq<string>): (lowered: seq<string>)
    requires forall k :: 0 <= k < |groups| ==> groups[k] != []
    requires forall k, i :: 0 <= k < |groups| && 0 <= i < |groups[k]| ==> IsLetterOrDigit(groups[k][i])
    ensures |lowered| == |groups|
    ensures forall k :: 0 <= k < |groups| ==> lowered[k] == ToLower(groups[k]) && IsToken(lowered[k])
  {
    var lowered := seq(|groups|, k requires 0 <= k < |groups| => ToLower(groups[k]));
    forall k | 0 <= k < |groups| ensures IsToken(lowered[k]) {
      var g := groups[k];
      forall i | 0 <= i < |g| ensures IsLower(lowered[k][i]) || IsDigit(lowered[k][i]) {
        assert IsLetterOrDigit(g[i]);
      }
    }
    lowered
  }

  /** Tokens are already lower-case. */
  lemma LowerAllTokens(tokens: seq<string>)
    requires forall k :: 0 <= k < |tokens| ==> IsToken(tokens[k]) && tokens[k] != []
    requires forall k, i :: 0 <= k < |tokens| && 0 <= i < |tokens[k]| ==> IsLetterOrDigit(tokens[k][i])
    ensures LowerAll(tokens) == tokens
  {
    forall k | 0 <= k < |tokens| ensures LowerAll(tokens)[k] == tokens[k] {
      TokenIsLower(tokens[k]);
    }
  }

  /** Tokens joined by spaces tokenize back into the same tokens. */
  lemma TokensOfJoin(tokens: seq<string>)
    requires forall k :: 0 <= k < |tokens| ==> IsToken(tokens[k])
    ensures SplitToTokens(Join(tokens, ' ')) == tokens
  {
    var s := Join(tokens, ' ');
    assert CharGroups(s, IsLetterOrDigit) == tokens by {
      forall k, i | 0 <= k < |tokens| && 0 <= i < |tokens[k]| ensures IsLetterOrDigit(tokens[k][i]) {
        assert IsToken(tokens[k]);
      }
      CharGroupsOfJoin(tokens, ' ', IsLetterOrDigit);
    }
    TokensOfGroups(s, tokens);
  }

  /** A string whose groups are tokens tokenizes into them. */
  lemma TokensOfGroups(s: string, tokens: seq<string>)
    requires forall k :: 0 <= k < |tokens| ==> IsToken(tokens[k])
    requires CharGroups(s, IsLetterOrDigit) == tokens
    ensures SplitToTokens(s) == tokens
  {
    LowerAllTokens(tokens);
  }

  lemma TokenIsLower(t: string)
    requires IsToken(t)
    ensures ToLower(t) == t
  {
    var r := ToLower(t);
    forall i | 0 <= i < |t| ensures r[i] == t[i] {
      assert !IsUpper(t[i]);
    }
  }

  /** Re-tokenizing the tokens joined by spaces gives the same tokens. */
  lemma SplitToTokensIdempotent(s: string)
    ensures SplitToTokens(Join(SplitToTokens(s), ' ')) == SplitToTokens(s)
  {
    TokensOfJoin(SplitToTokens(s));
  }

  /** `ExtractDigitGroups`: the runs of digits, as text (leading zeros kept). */
  function ExtractDigitGroups(s: string): (groups: seq<string>)
    ensures forall k :: 0 <= k < |groups| ==> groups[k] != [] && AllDigits(groups[k])
  {
    CharGroups(s, IsDigit)
  }

  lemma DigitGroupsKeepLeadingZeros(pre: string, g1: string, mid: string, g2: string)
    requires pre == "Vol. " && g1 == "01" && mid == " - " && g2 == "2"
    ensures ExtractDigitGroups(pre + g1 + mid + g2) == [g1, g2]
  {
    FirstGroupIsFirstRun(mid, g2, "", IsDigit);
    assert mid + g2 + "" == mid + g2;
    assert CharGroups("", IsDigit) == [];
    FirstGroupIsFirstRun(pre, g1, mid + g2, IsDigit);
    assert pre + g1 + mid + g2 == pre + g1 + (mid + g2);
  }

  // ---------------------------------------------------------------------------
  // Common tokens

  /** The tokens that every string of a non-empty list contains; none for an empty list. */
  function CommonTokens(strings: seq<string>): set<string>
  {
    if strings == [] then {}
    else set t | t in SplitToTokens(strings[0]) && forall k :: 0 <= k < |strings| ==> t in SplitToTokens(strings[k])
  }

  /** `FindCommonTokens`: the token set of the first string, intersected in turn
      with the token set of every other string. */
  method FindCommonTokens(strings: seq<string>) returns (commonTokens: set<string>)
    ensures commonTokens == CommonTokens(strings)
  {
    var tokens := seq(|strings|, k requires 0 <= k < |strings| => SplitToTokens(strings[k]));
    commonTokens := if |tokens| == 0 then {} else Elements(tokens[0]);
    if |tokens| == 0 {
      return;
    }
    for k := 1 to |tokens|
      invariant forall t :: t in commonTokens <==> t in tokens[0] && forall j :: 0 <= j < k ==> t in tokens[j]
    {
      commonTokens := commonTokens * Elements(tokens[k]);
    }
    forall t ensures t in commonTokens <==> t in CommonTokens(strings) {
      assert forall j :: 0 <= j < |strings| ==> tokens[j] == SplitToTokens(strings[j]);
    }
  }

  // ---------------------------------------------------------------------------
  // Longest common prefix

  /** Character equality, optionally ignoring the case of letters. */
  predicate CharEquals(a: char, b: char, ignoreCase: bool)
  {
    if ignoreCase then ToLowerChar(a) == ToLowerChar(b) else a == b
  }

  /** How many leading positions of `a` and `b` agree (`Zip` then `TakeWhile`). */
  function AgreeingLength(a: string, b: string, ignoreCase: bool): (n: nat)
    ensures n <= |a| && n <= |b|
    ensures forall i :: 0 <= i < n ==> CharEquals(a[i], b[i], ignoreCase)
    ensures n == |a| || n == |b| || !CharEquals(a[n], b[n], ignoreCase)
  {
    if a == [] || b == [] || !CharEquals(a[0], b[0], ignoreCase) then 0
    else 1 + AgreeingLength(a[1..], b[1..], ignoreCase)
  }

  /** The common prefix of two strings, taken from the first. */
  function Lcp(a: string, b: string, ignoreCase: bool): string
  {
    a[..AgreeingLength(a, b, ignoreCase)]
  }

  /** `FindLongestCommonPrefix(ignoreCase)`: `Lcp` folded over the list from the left. */
  function FindLongestCommonPrefix(strings: seq<string>, ignoreCase: bool): (prefix: string)
    requires |strings| > 0
    ensures |prefix| <= |strings[0]| && prefix == strings[0][..|prefix|]
    ensures forall k :: 0 <= k < |strings| ==> |prefix| <= |strings[k]|
    ensures forall k, i :: 0 <= k < |strings| && 0 <= i < |prefix| ==> CharEquals(prefix[i], strings[k][i], ignoreCase)
    ensures |prefix| < |strings[0]| ==>
      (exists k :: 0 <= k < |strings| &&
        (|prefix| == |strings[k]| || !CharEquals(strings[0][|prefix|], strings[k][|prefix|], ignoreCase)))
  {
    if |strings| == 1 then strings[0]
    else
      var init := strings[..|strings| - 1];
      var last := strings[|strings| - 1];
      var acc := FindLongestCommonPrefix(init, ignoreCase);
      var prefix := Lcp(acc, last, ignoreCase);
      assert forall k :: 0 <= k < |init| ==> init[k] == strings[k];
      assert |prefix| < |acc| ==> |prefix| == |last| || !CharEquals(strings[0][|prefix|], last[|prefix|], ignoreCase);
      prefix
  }

  /** Two strings that share `p` and then differ have `p` as their common prefix. */
  lemma LcpOfDivergingStrings(p: string, x: string, y: string, ignoreCase: bool)
    requires x != [] && y != [] && !CharEquals(x[0], y[0], ignoreCase)
    ensures FindLongestCommonPrefix([p + x, p + y], ignoreCase) == p
  {
    AgreeingLengthIs(p + x, p + y, ignoreCase, |p|);
    assert [p + x, p + y][..1] == [p + x];
    assert (p + x)[..|p|] == p;
  }

  /** The two-track example of the source: both names share the digit `0` of the
      track number, so the prefix runs up to and including it. */
  lemma MaayaSakamotoPrefix()
    ensures FindLongestCommonPrefix([
      "Maaya Sakamoto - Shippo no Uta Single - 01 - Shippo no Uta",
      "Maaya Sakamoto - Shippo no Uta Single - 02 - Midori no Hane"], true)
      == "Maaya Sakamoto - Shippo no Uta Single - 0"
  {
    var p := "Maaya Sakamoto - Shippo no Uta Single - 0";
    var x, y := "1 - Shippo no Uta", "2 - Midori no Hane";
    LcpOfDivergingStrings(p, x, y, true);
    MaayaSakamotoFirstName(p, x);
    MaayaSakamotoSecondName(p, y);
  }

  lemma MaayaSakamotoFirstName(p: string, x: string)
    requires p == "Maaya Sakamoto - Shippo no Uta Single - 0" && x == "1 - Shippo no Uta"
    ensures p + x == "Maaya Sakamoto - Shippo no Uta Single - 01 - Shippo no Uta"
  {
  }

  lemma MaayaSakamotoSecondName(p: string, y: string)
    requires p == "Maaya Sakamoto - Shippo no Uta Single - 0" && y == "2 - Midori no Hane"
    ensures p + y == "Maaya Sakamoto - Shippo no Uta Single - 02 - Midori no Hane"
  {
  }

  lemma {:induction false} AgreeingLengthIs(a: string, b: string, ignoreCase: bool, n: nat)
    requires n <= |a| && n <= |b|
    requires forall i :: 0 <= i < n ==> CharEquals(a[i], b[i], ignoreCase)
    requires n == |a| || n == |b| || !CharEquals(a[n], b[n], ignoreCase)
    ensures AgreeingLength(a, b, ignoreCase) == n
  {
    if n > 0 {
      AgreeingLengthIs(a[1..], b[1..], ignoreCase, n - 1);
    }
  }
}
