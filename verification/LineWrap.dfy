/** Line wrapping: a first cut into lines, then words are moved between neighbours to even the lengths. */
module LineWrap {
  import opened Wrappers

  type Text = seq<nat>
  type Word = seq<nat>
  type Line = seq<Word>

  const ROUNDS_MAX := 40
  const SETTLED := 0.00001

  /** is_blank_or_space */
  predicate IsBlank(c: nat)
  {
    c in {0x20, 0xa0, 0x0a, 0x0d, 0x09, 0x08, 0x0c, 0x2000, 0x2001, 0x2003, 0x2004, 0x2005, 0x2006, 0x2007,
          0x2008, 0x2009, 0x200a, 0x200b, 0x202f, 0x205f, 0x3000, 0xfeff}
  }

  /** Space, no-break space, backspace, tab, the two line ends, form feed, and the Unicode blanks but the en space. */
  lemma Blanks(c: nat)
    ensures IsBlank(c) <==>
              || c == 0x20 || c == 0xa0 || 8 <= c <= 10 || c == 12 || c == 13
              || (0x2000 <= c <= 0x200b && c != 0x2002) || c == 0x202f || c == 0x205f || c == 0x3000 || c == 0xfeff
  {
  }

  predicate BlankAt(s: Text, i: nat)
  {
    i < |s| && IsBlank(s[i])
  }

  /** charactersPerLine */
  function CharactersPerLine(total: nat, maxCharsPerLine: nat): real
    requires maxCharsPerLine > 0
  {
    total as real / (1.0 + total as real / maxCharsPerLine as real)
  }

  /** Half the harmonic mean of text length and line width. */
  lemma CharactersPerLineIs(total: nat, maxCharsPerLine: nat)
    requires maxCharsPerLine > 0
    ensures CharactersPerLine(total, maxCharsPerLine) * (maxCharsPerLine + total) as real
         == total as real * maxCharsPerLine as real
  {
    var t, m := total as real, maxCharsPerLine as real;
    var d := 1.0 + t / m;
    Quotient(t, m, d);
    var q := t / d;
    assert q * d == t;
    assert q * (d * m) == (q * d) * m;
  }

  /** split_range: there is a word, perhaps an empty one, before, between and after the blanks. */
  function Split(s: Text): (words: Line)
    ensures words != []
  {
    if s == [] then [[]]
    else
      var rest := Split(s[1..]);
      if IsBlank(s[0]) then [[]] + rest else [[s[0]] + rest[0]] + rest[1..]
  }

  /** The words that are not empty. */
  function Solid(words: Line): Line
  {
    if words == [] then [] else (if words[0] == [] then [] else [words[0]]) + Solid(words[1..])
  }

  lemma SolidIs(w: Word)
    ensures Solid([]) == [] && Solid([w]) == if w == [] then [] else [w]
  {
  }

  lemma {:induction false} SolidJoin(a: Line, b: Line)
    ensures Solid(a + b) == Solid(a) + Solid(b)
  {
    if a == [] {
      assert a + b == b;
    } else {
      assert (a + b)[1..] == a[1..] + b;
      SolidJoin(a[1..], b);
    }
  }

  /** The words after one more character was put in front. */
  function Prepend(c: nat, words: Line): Line
    requires words != []
  {
    if IsBlank(c) then [[]] + words else [[c] + words[0]] + words[1..]
  }

  lemma SplitFront(s: Text)
    requires s != []
    ensures Split(s) == Prepend(s[0], Split(s[1..]))
  {
  }

  lemma PrependJoin(c: nat, a: Line, b: Line)
    requires a != []
    ensures Prepend(c, a + b) == Prepend(c, a) + b
  {
    assert (a + b)[0] == a[0] && (a + b)[1..] == a[1..] + b;
  }

  lemma FrontOfJoin(a: Text, blank: nat, b: Text)
    requires a != []
    ensures (a + [blank] + b)[0] == a[0] && (a + [blank] + b)[1..] == a[1..] + [blank] + b
  {
  }

  /** Splitting at a blank splits the word sequence there. */
  lemma {:induction false} SplitJoin(a: Text, blank: nat, b: Text)
    requires IsBlank(blank)
    ensures Split(a + [blank] + b) == Split(a) + Split(b)
  {
    if a == [] {
      assert a + [blank] + b == [blank] + b;
      assert ([blank] + b)[1..] == b;
    } else {
      hide Split, Prepend;
      SplitFront(a + [blank] + b);
      FrontOfJoin(a, blank, b);
      SplitJoin(a[1..], blank, b);
      PrependJoin(a[0], Split(a[1..]), Split(b));
      SplitFront(a);
    }
  }

  /** Cutting the text before a blank loses no word and changes none. */
  lemma CutAtBlank(s: Text, i: nat)
    requires BlankAt(s, i)
    ensures Solid(Split(s)) == Solid(Split(s[..i])) + Solid(Split(s[i..]))
  {
    CutSeq(s, i);
    EmptySplit();
    hide Split, Solid;
    var b := s[i + 1..];
    SplitJoin(s[..i], s[i], b);
    SplitJoin([], s[i], b);
    SolidJoin(Split(s[..i]), Split(b));
    SolidJoin([[]], Split(b));
    EmptyFront(Solid(Split(b)));
  }

  lemma EmptyFront(words: Line)
    ensures [] + words == words
  {
  }

  lemma EmptySplit()
    ensures Split([]) == [[]] && Solid([[]]) == []
  {
  }

  lemma CutSeq(s: Text, i: nat)
    requires i < |s|
    ensures s == s[..i] + [s[i]] + s[i + 1..] && s[i..] == [] + [s[i]] + s[i + 1..]
  {
  }

  // ------------------------------------------------------------------ where a line ends

  /** The last blank at or before i, or first. */
  function LeftBreak(s: Text, first: nat, i: nat): (r: nat)
    requires first <= i <= |s|
    ensures first <= r <= i && (r == first || BlankAt(s, r))
    ensures forall j | r < j <= i :: !BlankAt(s, j)
  {
    if i > first && !BlankAt(s, i) then LeftBreak(s, first, i - 1) else i
  }

  /** The first blank at or behind i, or the end. */
  function RightBreak(s: Text, i: nat): (r: nat)
    requires i <= |s|
    ensures i <= r <= |s| && (r == |s| || BlankAt(s, r))
    ensures forall j | i <= j < r :: !BlankAt(s, j)
    decreases |s| - i
  {
    if i < |s| && !BlankAt(s, i) then RightBreak(s, i + 1) else i
  }

  /** nearestBreak; a read at the end of the text sees the terminating zero, which is no blank. */
  function NearestBreak(s: Text, first: nat, cpl: real): (r: nat)
    requires first <= |s| && 0.0 <= cpl <= (|s| - first) as real
    ensures first <= r <= |s| && (r == |s| || BlankAt(s, r))
  {
    var middle := first + cpl.Floor;
    var left, right := LeftBreak(s, first, middle), RightBreak(s, middle);
    if left != first && (middle - left) as real < (right - middle) as real * 1.2 then left else right
  }

  /** Where the line that begins at first ends. */
  function LineEnd(s: Text, first: nat, cpl: real): (r: nat)
    requires first < |s| && cpl >= 0.0
    ensures first <= r <= |s| && (r == |s| || BlankAt(s, r))
  {
    if (|s| - first) as real >= cpl then NearestBreak(s, first, cpl) else |s|
  }

  lemma {:induction false} LeftBreakIs(s: Text, first: nat, i: nat, left: nat)
    requires first <= left <= i <= |s| && (left == first || BlankAt(s, left))
    requires forall j | left < j <= i :: !BlankAt(s, j)
    ensures LeftBreak(s, first, i) == left
    decreases i
  {
    if i > left {
      LeftBreakIs(s, first, i - 1, left);
    }
  }

  lemma {:induction false} RightBreakIs(s: Text, i: nat, right: nat)
    requires i <= right <= |s| && (right == |s| || BlankAt(s, right))
    requires forall j | i <= j < right :: !BlankAt(s, j)
    ensures RightBreak(s, i) == right
    decreases right - i
  {
    if i < right {
      RightBreakIs(s, i + 1, right);
    }
  }

  /** A line whose text does not reach the step takes all of it. Otherwise, of the blanks next to the place one step
      on, the left one ends the line if it is not where the line begins and is less than 6/5 as far away as the
      right one or the end of the text; if not, the right one does. */
  lemma LineEndIs(s: Text, first: nat, cpl: real, left: nat, right: nat)
    requires first < |s| && cpl >= 0.0
    requires cpl <= (|s| - first) as real ==>
               var middle := first + cpl.Floor;
               && first <= left <= middle <= right <= |s|
               && (left == first || BlankAt(s, left)) && (right == |s| || BlankAt(s, right))
               && (forall j | left < j <= middle ::
                    !BlankAt(s, j)) && (forall j | middle <= j < right :: !BlankAt(s, j))
    ensures LineEnd(s, first, cpl) ==
            if cpl > (|s| - first) as real then |s|
            else
              var middle := first + cpl.Floor;
              if left != first && 5 * (middle - left) < 6 * (right - middle) then left else right
  {
    if cpl <= (|s| - first) as real {
      var middle := first + cpl.Floor;
      LeftBreakIs(s, first, middle, left);
      RightBreakIs(s, middle, right);
    }
  }

  /** The beginning of the next line after n turns of the loop in initialSet. */
  function After(s: Text, cpl: real, n: nat): (r: nat)
    requires cpl >= 0.0
    ensures r <= |s|
  {
    if n == 0 then 0
    else
      var first := After(s, cpl, n - 1);
      if first < |s| then LineEnd(s, first, cpl) else first
  }

  /** Neither the text nor the line width is a single character, or there is nothing to break at. */
  ghost predicate Breakable(s: Text, maxCharsPerLine: nat)
  {
    (|s| >= 2 && maxCharsPerLine >= 2) || forall i: nat :: !BlankAt(s, i)
  }

  lemma WideEnough(total: nat, maxCharsPerLine: nat)
    requires maxCharsPerLine > 0
    ensures CharactersPerLine(total, maxCharsPerLine) >= 0.0
    ensures total > 0 ==> (CharactersPerLine(total, maxCharsPerLine) >= 1.0 <==> total >= 2 && maxCharsPerLine >= 2)
  {
    var t, m := total as real, maxCharsPerLine as real;
    var d := 1.0 + t / m;
    Quotient(t, m, d);
    if total > 0 {
      assert CharactersPerLine(total, maxCharsPerLine) == t / d;
      AtLeastOne(t, d);
      WholeNumbers(total, maxCharsPerLine);
      Scaled(t, m, d);
    }
  }

  lemma Quotient(t: real, m: real, d: real)
    requires t >= 0.0 && m > 0.0 && d == 1.0 + t / m
    ensures d >= 1.0 && t / d >= 0.0 && d * m == m + t
  {
    assert (t / m) * m == t;
    assert d * m == 1.0 * m + (t / m) * m;
  }

  lemma AtLeastOne(t: real, d: real)
    requires d >= 1.0
    ensures t / d >= 1.0 <==> t >= d
  {
    var q := t / d;
    assert q * d == t;
    if q >= 1.0 {
      assert (q - 1.0) * d >= 0.0;
    } else {
      assert (1.0 - q) * d > 0.0;
    }
  }

  lemma Scaled(t: real, m: real, d: real)
    requires m > 0.0 && d * m == m + t
    ensures t >= d <==> t * m >= m + t
  {
    if t >= d {
      assert (t - d) * m >= 0.0;
    } else {
      assert (d - t) * m > 0.0;
    }
    assert (t - d) * m == t * m - d * m;
  }

  lemma WholeNumbers(a: nat, b: nat)
    requires a > 0 && b > 0
    ensures a as real * b as real >= b as real + a as real <==> a >= 2 && b >= 2
  {
    assert (a * b) as real == a as real * b as real;
    if a >= 2 && b >= 2 {
      assert (a - 1) * (b - 1) >= 1;
      assert (a - 1) * (b - 1) == a * b - a - b + 1;
    }
  }

  /** A turn makes progress exactly unless it starts at a blank with less than one character per line. */
  lemma Progress(s: Text, first: nat, cpl: real)
    requires first < |s| && 0.0 <= cpl
    requires cpl <= |s| as real
    ensures LineEnd(s, first, cpl) == first <==> cpl < 1.0 && BlankAt(s, first)
  {
    if (|s| - first) as real >= cpl {
      assert cpl < 1.0 ==> cpl.Floor == 0;
      assert cpl >= 1.0 ==> cpl.Floor >= 1;
    } else {
      assert cpl > 1.0;
    }
  }

  lemma NoWider(total: nat, maxCharsPerLine: nat)
    requires maxCharsPerLine > 0
    ensures CharactersPerLine(total, maxCharsPerLine) <= total as real
  {
    var t, d := total as real, 1.0 + total as real / maxCharsPerLine as real;
    Quotient(t, maxCharsPerLine as real, d);
    var q := t / d;
    assert q * d == t && q >= 0.0;
    assert q * (d - 1.0) >= 0.0;
  }

  // ------------------------------------------------------------------ the first cut

  /** The loop reaches the end of the text. */
  ghost predicate Ends(s: Text, cpl: real)
    requires cpl >= 0.0
  {
    exists n :: After(s, cpl, n) == |s|
  }

  lemma {:induction false} Advances(s: Text, cpl: real, n: nat)
    requires 0.0 <= cpl <= |s| as real
    requires cpl >= 1.0 || forall i: nat :: !BlankAt(s, i)
    ensures After(s, cpl, n) >= n || After(s, cpl, n) == |s|
  {
    hide LineEnd, BlankAt;
    if n > 0 {
      Advances(s, cpl, n - 1);
      var first := After(s, cpl, n - 1);
      if first < |s| {
        Progress(s, first, cpl);
      }
    }
  }

  /** With less than one character per line the loop stops moving at the first blank. */
  lemma {:induction false} StuckAtBlank(s: Text, cpl: real, blank: nat, n: nat)
    requires 0.0 <= cpl < 1.0 && cpl <= |s| as real && BlankAt(s, blank) && forall i | 0 <= i < blank :: !BlankAt(s, i)
    ensures After(s, cpl, n) <= blank
  {
    if n > 0 {
      StuckAtBlank(s, cpl, blank, n - 1);
      var first := After(s, cpl, n - 1);
      assert cpl.Floor == 0;
      assert RightBreak(s, first) <= blank;
    }
  }

  lemma {:induction false} FirstBlank(s: Text, i: nat) returns (blank: nat)
    requires BlankAt(s, i)
    ensures BlankAt(s, blank) && forall j | 0 <= j < blank :: !BlankAt(s, j)
    decreases i
  {
    if j: nat :| j < i && BlankAt(s, j) {
      blank := FirstBlank(s, j);
    } else {
      blank := i;
    }
  }

  /** Over rationals the first cut comes to an end exactly if both the text and the line width have at least two
      characters, or there is no blank in the text. */
  lemma EndsExactly(s: Text, maxCharsPerLine: nat)
    requires maxCharsPerLine > 0 && s != []
    ensures CharactersPerLine(|s|, maxCharsPerLine) >= 0.0
    ensures Ends(s, CharactersPerLine(|s|, maxCharsPerLine)) <==> Breakable(s, maxCharsPerLine)
  {
    var cpl := CharactersPerLine(|s|, maxCharsPerLine);
    WideEnough(|s|, maxCharsPerLine);
    NoWider(|s|, maxCharsPerLine);
    hide CharactersPerLine;
    if Breakable(s, maxCharsPerLine) {
      Advances(s, cpl, |s|);
    } else {
      var i: nat :| BlankAt(s, i);
      var blank := FirstBlank(s, i);
      forall n ensures After(s, cpl, n) != |s| {
        StuckAtBlank(s, cpl, blank, n);
      }
    }
  }

  /** Over rationals a text of one blank is cut at the same place for ever. */
  lemma SingleBlank(maxCharsPerLine: nat)
    requires maxCharsPerLine > 0
    ensures CharactersPerLine(1, maxCharsPerLine) >= 0.0 && !Ends([0x20], CharactersPerLine(1, maxCharsPerLine))
  {
    assert BlankAt([0x20], 0);
    hide CharactersPerLine;
    EndsExactly([0x20], maxCharsPerLine);
  }

  /** All words of all lines. */
  function Words(lines: seq<Line>): Line
  {
    if lines == [] then [] else Words(lines[..|lines| - 1]) + lines[|lines| - 1]
  }

  /** The lines cover s up to first: each is the split of the text between two places where it ends,
      and those places are blanks or the end. */
  ghost predicate Covers(s: Text, lines: seq<Line>, ends: seq<nat>)
  {
    && |ends| == |lines|
    && (forall k | 0 <= k < |ends| :: ends[k] <= |s| && (ends[k] == |s| || BlankAt(s, ends[k])))
    && (forall k | 0 <= k < |lines| :: Begin(ends, k) < ends[k] && lines[k] == Split(s[Begin(ends, k)..ends[k]]))
  }

  function Begin(ends: seq<nat>, k: nat): nat
    requires k <= |ends|
  {
    if k == 0 then 0 else ends[k - 1]
  }

  lemma OneMoreLine(s: Text, lines: seq<Line>, ends: seq<nat>, end: nat)
    requires Covers(s, lines, ends) && Begin(ends, |ends|) < end <= |s| && (end == |s| || BlankAt(s, end))
    ensures Covers(s, lines + [Split(s[Begin(ends, |ends|)..end])], ends + [end])
    ensures Begin(ends + [end], |ends| + 1) == end
  {
    hide Split, Begin, BlankAt;
    var line := Split(s[Begin(ends, |ends|)..end]);
    var ls, es := lines + [line], ends + [end];
    BeginAppended(ends, end, |ends| + 1);
    forall k | 0 <= k < |es| ensures es[k] <= |s| && (es[k] == |s| || BlankAt(s, es[k])) {
      assert if k < |ends| then es[k] == ends[k] else es[k] == end;
    }
    forall k | 0 <= k < |ls| ensures Begin(es, k) < es[k] && ls[k] == Split(s[Begin(es, k)..es[k]]) {
      BeginAppended(ends, end, k);
      assert if k < |lines| then ls[k] == lines[k] else ls[k] == line && k == |ends|;
    }
  }

  lemma BeginAppended(ends: seq<nat>, end: nat, k: nat)
    requires k <= |ends| + 1
    ensures k <= |ends| ==> Begin(ends + [end], k) == Begin(ends, k)
    ensures k == |ends| + 1 ==> Begin(ends + [end], k) == end
    ensures k < |ends| ==> (ends + [end])[k] == ends[k]
    ensures k == |ends| ==> (ends + [end])[k] == end
  {
  }

  lemma BeginFront(ends: seq<nat>, n: nat, k: nat)
    requires k <= n <= |ends|
    ensures Begin(ends[..n], k) == Begin(ends, k) && (k < n ==> ends[..n][k] == ends[k])
  {
  }

  lemma CoversFront(s: Text, lines: seq<Line>, ends: seq<nat>)
    requires Covers(s, lines, ends) && lines != []
    ensures Covers(s, lines[..|lines| - 1], ends[..|lines| - 1])
  {
    hide Split;
    var n := |lines| - 1;
    forall k | 0 <= k < n
      ensures Begin(ends[..n], k) < ends[..n][k] && lines[..n][k] == Split(s[Begin(ends[..n], k)..ends[..n][k]])
    {
      BeginFront(ends, n, k);
    }
  }

  lemma CoversLast(s: Text, lines: seq<Line>, ends: seq<nat>)
    requires Covers(s, lines, ends) && lines != []
    ensures var n := |lines| - 1;
            var first := Begin(ends, n);
            && first < ends[n] <= |s| && lines[n] == Split(s[first..ends[n]])
            && (first == 0 || BlankAt(s, first)) && Begin(ends, |ends|) == ends[n]
  {
    hide Split;
    var n := |lines| - 1;
    assert n > 0 ==> ends[n - 1] < ends[n];
  }

  /** Cutting the text keeps its words. */
  lemma {:induction false} CoveredWords(s: Text, lines: seq<Line>, ends: seq<nat>)
    requires Covers(s, lines, ends)
    ensures Begin(ends, |ends|) <= |s| && Solid(Words(lines)) == Solid(Split(s[..Begin(ends, |ends|)]))
  {
    if lines == [] {
      assert s[..0] == [];
      EmptySplit();
    } else {
      var n := |lines| - 1;
      CoversFront(s, lines, ends);
      CoversLast(s, lines, ends);
      BeginFront(ends, n, n);
      hide Covers, Split, Solid;
      CoveredWords(s, lines[..n], ends[..n]);
      LastLine(s, Begin(ends, n), ends[n], Words(lines[..n]), lines[n]);
    }
  }

  lemma LastLine(s: Text, first: nat, end: nat, words: Line, last: Line)
    requires first < end <= |s| && last == Split(s[first..end]) && Solid(words) == Solid(Split(s[..first]))
    requires first == 0 || BlankAt(s, first)
    ensures Solid(words + last) == Solid(Split(s[..end]))
  {
    SolidJoin(words, last);
    if first == 0 {
      EmptySplit();
      assert s[..0] == [] && s[0..end] == s[..end];
      EmptyFront(Solid(last));
    } else {
      var t := s[..end];
      assert t[..first] == s[..first] && t[first..] == s[first..end];
      hide Split, Solid;
      CutAtBlank(t, first);
    }
  }

  /** The first cut of the text: between the places where the turns of the loop in initialSet end. */
  ghost predicate FirstCut(s: Text, maxCharsPerLine: nat, lines: seq<Line>, ends: seq<nat>)
    requires maxCharsPerLine > 0
  {
    var cpl := CharactersPerLine(|s|, maxCharsPerLine);
    && Covers(s, lines, ends) && Begin(ends, |ends|) == |s| && cpl >= 0.0
    && forall k | 0 <= k < |ends| :: ends[k] == After(s, cpl, k + 1)
  }

  /** initialSet, on the inputs for which its loop ends. */
  method InitialSet(s: Text, maxCharsPerLine: nat) returns (lines: seq<Line>, ghost ends: seq<nat>)
    requires maxCharsPerLine > 0 && s != [] && Breakable(s, maxCharsPerLine)
    ensures FirstCut(s, maxCharsPerLine, lines, ends) && lines != []
  {
    hide CutSoFar, CharactersPerLine, LineEnd, Breakable, Split;
    var cpl := CharactersPerLine(|s|, maxCharsPerLine);
    WideEnough(|s|, maxCharsPerLine);
    lines, ends := [], [];
    var first := 0;
    NothingCut(s, cpl);
    while first < |s|
      invariant first <= |s| && CutSoFar(s, cpl, lines, ends, first)
    {
      MustProgress(s, maxCharsPerLine, first, cpl);
      var selected := LineEnd(s, first, cpl);
      CutStep(s, cpl, lines, ends, first);
      lines := lines + [Split(s[first..selected])];
      ends := ends + [selected];
      first := selected;
    }
    CutDone(s, cpl, lines, ends);
  }

  /** The lines made by the turns so far, which reach up to first. */
  ghost predicate CutSoFar(s: Text, cpl: real, lines: seq<Line>, ends: seq<nat>, first: nat)
    requires cpl >= 0.0
  {
    && Covers(s, lines, ends) && first == Begin(ends, |ends|) && first == After(s, cpl, |ends|)
    && (first > 0 ==> lines != []) && forall k | 0 <= k < |ends| :: ends[k] == After(s, cpl, k + 1)
  }

  lemma NothingCut(s: Text, cpl: real)
    requires cpl >= 0.0
    ensures CutSoFar(s, cpl, [], [], 0)
  {
  }

  lemma CutStep(s: Text, cpl: real, lines: seq<Line>, ends: seq<nat>, first: nat)
    requires cpl >= 0.0 && first < |s| && CutSoFar(s, cpl, lines, ends, first) && LineEnd(s, first, cpl) > first
    ensures CutSoFar(s, cpl, lines + [Split(s[first..LineEnd(s, first, cpl)])], ends + [LineEnd(s, first, cpl)],
            LineEnd(s, first, cpl))
  {
    hide Covers, Split, LineEnd, BlankAt, Begin;
    var end := LineEnd(s, first, cpl);
    AfterNext(s, cpl, |ends|);
    hide After;
    OneMoreLine(s, lines, ends, end);
  }

  lemma CutDone(s: Text, cpl: real, lines: seq<Line>, ends: seq<nat>)
    requires cpl >= 0.0 && s != [] && CutSoFar(s, cpl, lines, ends, |s|)
    ensures Covers(s, lines, ends) && Begin(ends, |ends|) == |s| && lines != []
    ensures forall k | 0 <= k < |ends| :: ends[k] == After(s, cpl, k + 1)
  {
    hide Covers, Begin, After;
  }

  lemma MustProgress(s: Text, maxCharsPerLine: nat, first: nat, cpl: real)
    requires first < |s| && maxCharsPerLine > 0 && Breakable(s, maxCharsPerLine) &&
             cpl == CharactersPerLine(|s|, maxCharsPerLine)
    ensures cpl >= 0.0 && LineEnd(s, first, cpl) > first
  {
    WideEnough(|s|, maxCharsPerLine);
    NoWider(|s|, maxCharsPerLine);
    hide CharactersPerLine, LineEnd;
    Progress(s, first, cpl);
  }

  lemma AfterNext(s: Text, cpl: real, n: nat)
    requires cpl >= 0.0 && After(s, cpl, n) < |s|
    ensures After(s, cpl, n + 1) == LineEnd(s, After(s, cpl, n), cpl)
  {
  }

  // ------------------------------------------------------------------ how even the lines are

  function WordChars(words: Line): nat
  {
    if words == [] then 0 else WordChars(words[..|words| - 1]) + |words[|words| - 1]|
  }

  /** The characters of a line with one blank between words. */
  function CharCount(words: Line): nat
  {
    WordChars(words) + (if words != [] then |words| - 1 else 0)
  }

  function TotalChars(lines: seq<Line>): nat
  {
    if lines == [] then 0 else TotalChars(lines[..|lines| - 1]) + CharCount(lines[|lines| - 1])
  }

  function Average(lines: seq<Line>): real
    requires lines != []
  {
    TotalChars(lines) as real / |lines| as real
  }

  function Times(a: real, b: real): real
  {
    a * b
  }

  function Squared(d: real): real
  {
    Times(d, d)
  }

  function SquareSum(lines: seq<Line>, avg: real): real
  {
    if lines == [] then 0.0
    else SquareSum(lines[..|lines| - 1], avg) + Squared(CharCount(lines[|lines| - 1]) as real - avg)
  }

  /** meanSquare: the variance of the line lengths. */
  function MeanSquare(lines: seq<Line>): real
    requires lines != []
  {
    SquareSum(lines, Average(lines)) / |lines| as real
  }

  /** The characters of a line are those of its words set with one blank between two. */
  lemma {:induction false} CharCountIs(words: Line)
    ensures CharCount(words) == if words == [] then 0 else |Render(words)| - 1
  {
    if words != [] {
      RenderedChars(words);
    }
  }

  lemma {:induction false} RenderedChars(words: Line)
    ensures |Render(words)| == WordChars(words) + |words|
  {
    if words != [] {
      RenderedChars(words[1..]);
      WordCharsFront(words);
    }
  }

  lemma {:induction false} WordCharsFront(words: Line)
    requires words != []
    ensures WordChars(words) == |words[0]| + WordChars(words[1..])
  {
    var n := |words| - 1;
    if n > 0 {
      WordCharsFront(words[..n]);
      assert words[..n][1..] == words[1..][..n - 1];
    }
  }

  lemma {:induction false} TotalJoin(a: seq<Line>, b: seq<Line>)
    ensures TotalChars(a + b) == TotalChars(a) + TotalChars(b)
  {
    if b == [] {
      assert a + b == a;
    } else {
      assert (a + b)[..|a + b| - 1] == a + b[..|b| - 1];
      TotalJoin(a, b[..|b| - 1]);
    }
  }

  /** Average length times number of lines is the number of characters in all lines together. */
  lemma AverageIs(lines: seq<Line>, line: Line)
    ensures TotalChars([line]) == CharCount(line)
    ensures lines != [] ==> Average(lines) * |lines| as real == TotalChars(lines) as real
  {
    assert [line][..0] == [];
    hide CharCount;
    if lines != [] {
      UndoAverage(lines);
    }
  }

  lemma UndoAverage(lines: seq<Line>)
    requires lines != []
    ensures Average(lines) * |lines| as real == TotalChars(lines) as real
  {
    hide TotalChars;
    Undo(TotalChars(lines) as real, |lines| as real);
  }

  lemma Undo(t: real, n: real)
    requires n > 0.0
    ensures t / n * n == t
  {
  }

  lemma TimesIsPositive(a: real, b: real)
    requires (a > 0.0 && b > 0.0) || (a < 0.0 && b < 0.0)
    ensures Times(a, b) > 0.0
  {
  }

  lemma SquareIsPositive(d: real)
    ensures if d == 0.0 then Squared(d) == 0.0 else Squared(d) > 0.0
  {
    assert Times(0.0, 0.0) == 0.0;
    hide Times;
    if d != 0.0 {
      TimesIsPositive(d, d);
    }
  }

  lemma {:induction false} SquareSumNotNegative(lines: seq<Line>, avg: real)
    ensures SquareSum(lines, avg) >= 0.0
    ensures SquareSum(lines, avg) == 0.0 <==> forall k | 0 <= k < |lines| :: CharCount(lines[k]) as real == avg
  {
    hide CharCount;
    if lines != [] {
      var n := |lines| - 1;
      var front, d := lines[..n], CharCount(lines[n]) as real - avg;
      SquareSumNotNegative(front, avg);
      SquareIsPositive(d);
      assert SquareSum(lines, avg) == SquareSum(front, avg) + Squared(d);
      hide SquareSum, Squared;
      if d == 0.0 {
        assert forall k | 0 <= k < n :: front[k] == lines[k];
      } else {
        assert CharCount(lines[n]) as real != avg;
      }
    }
  }

  /** The variance is zero exactly if all lines have the average length. */
  lemma EvenLines(lines: seq<Line>)
    requires lines != []
    ensures MeanSquare(lines) >= 0.0
    ensures MeanSquare(lines) == 0.0 <==> forall k | 0 <= k < |lines| :: CharCount(lines[k]) as real == Average(lines)
  {
    SquareSumNotNegative(lines, Average(lines));
    Undo(SquareSum(lines, Average(lines)), |lines| as real);
    hide SquareSum, CharCount, Average;
  }

  /** Of two lines it is the square of half their difference. */
  lemma TwoLinesVariance(x: Line, y: Line)
    ensures var h := (CharCount(x) as real - CharCount(y) as real) / 2.0; MeanSquare([x, y]) == h * h
  {
    hide CharCount;
    var a, b := CharCount(x) as real, CharCount(y) as real;
    assert [x, y][..1] == [x] && [x][..0] == [];
    assert TotalChars([x]) == CharCount(x);
    assert TotalChars([x, y]) == CharCount(x) + CharCount(y);
    var avg := (a + b) / 2.0;
    assert Average([x, y]) == avg;
    assert SquareSum([], avg) == 0.0;
    assert SquareSum([x], avg) == (a - avg) * (a - avg);
    assert SquareSum([x, y], avg) == (a - avg) * (a - avg) + (b - avg) * (b - avg);
    var h := (a - b) / 2.0;
    assert a - avg == h && b - avg == -h;
  }

  // ------------------------------------------------------------------ moving a word

  /** The last word of line i - 1 moves to the front of line i. */
  function Pull(lines: seq<Line>, i: nat): seq<Line>
    requires 0 < i < |lines|
  {
    var from := lines[i - 1];
    if from == [] then lines else lines[i - 1 := from[..|from| - 1]][i := [from[|from| - 1]] + lines[i]]
  }

  /** The first word of line i moves to the end of line i - 1. */
  function Push(lines: seq<Line>, i: nat): seq<Line>
    requires 0 < i < |lines|
  {
    var from := lines[i];
    if from == [] then lines else lines[i := from[1..]][i - 1 := lines[i - 1] + [from[0]]]
  }

  /** incrLength and decrLength; the first line grows at the expense of the second. */
  function Move(lines: seq<Line>, i: nat, increase: bool): (r: seq<Line>)
    requires i < |lines|
    ensures |r| == |lines|
  {
    if i == 0 then (if |lines| < 2 then lines else if increase then Push(lines, 1) else Pull(lines, 1))
    else if increase then Pull(lines, i)
    else Push(lines, i)
  }

  /** A move that changed something is undone by the opposite move. */
  lemma MoveBack(lines: seq<Line>, i: nat, increase: bool)
    requires i < |lines|
    ensures |Move(lines, i, increase)| == |lines|
    ensures Move(lines, i, increase) != lines ==> Move(Move(lines, i, increase), i, !increase) == lines
  {
    var k := if i == 0 then 1 else i;
    if k < |lines| {
      PullPush(lines, k);
      PushPull(lines, k);
    }
  }

  /** Line i gains one word from its neighbour, or gives one to it; all other lines stay as they are. */
  lemma MoveTransfers(lines: seq<Line>, i: nat, increase: bool)
    requires 0 < i < |lines| && (if increase then lines[i - 1] != [] else lines[i] != [])
    ensures var t := Move(lines, i, increase);
            && |t[i]| == |lines[i]| + (if increase then 1 else -1) &&
               |t[i - 1]| == |lines[i - 1]| - (if increase then 1 else -1)
            && t[i - 1] + t[i] == lines[i - 1] + lines[i]
            && forall k | 0 <= k < |lines| && k != i && k != i - 1 :: t[k] == lines[k]
  {
  }

  /** The first line exchanges its last word for the first word of the second. Nothing moves out of an empty line,
      nor when there is one line only. */
  lemma MoveFirst(lines: seq<Line>, increase: bool)
    requires lines != []
    ensures |lines| < 2 || (if increase then lines[1] == [] else lines[0] == []) <==> Move(lines, 0, increase) == lines
    ensures var t := Move(lines, 0, increase);
            t != lines ==>
              && |t[0]| == |lines[0]| + (if increase then 1 else -1) && t[0] + t[1] == lines[0] + lines[1]
              && |t| == |lines| && t[2..] == lines[2..]
  {
  }

  lemma PullPush(lines: seq<Line>, i: nat)
    requires 0 < i < |lines|
    ensures lines[i - 1] != [] ==> Push(Pull(lines, i), i) == lines
  {
    var from := lines[i - 1];
    if from != [] {
      var t := Pull(lines, i);
      assert t[i][1..] == lines[i] && t[i][0] == from[|from| - 1];
      assert t[i - 1] + [t[i][0]] == from;
    }
  }

  lemma PushPull(lines: seq<Line>, i: nat)
    requires 0 < i < |lines|
    ensures lines[i] != [] ==> Pull(Push(lines, i), i) == lines
  {
    var from := lines[i];
    if from != [] {
      var t := Push(lines, i);
      var grown := t[i - 1];
      assert grown[..|grown| - 1] == lines[i - 1] && grown[|grown| - 1] == from[0];
      assert [from[0]] + t[i] == from;
    }
  }

  lemma {:induction false} WordsJoin(a: seq<Line>, b: seq<Line>)
    ensures Words(a + b) == Words(a) + Words(b)
  {
    if b == [] {
      assert a + b == a;
    } else {
      var n := |b| - 1;
      assert (a + b)[..|a + b| - 1] == a + b[..n];
      WordsJoin(a, b[..n]);
      assert (Words(a) + Words(b[..n])) + b[n] == Words(a) + (Words(b[..n]) + b[n]);
    }
  }

  lemma TwoLines(x: Line, y: Line)
    ensures Words([x, y]) == x + y
  {
    assert [x, y][..1] == [x] && [x][..0] == [];
    assert Words([x]) == [] + x == x;
  }

  /** Two neighbours with the same words together leave the words of all lines the same. */
  lemma NeighboursWords(lines: seq<Line>, i: nat, x: Line, y: Line)
    requires 0 < i < |lines| && x + y == lines[i - 1] + lines[i]
    ensures Words(lines[i - 1 := x][i := y]) == Words(lines)
  {
    var a, b := lines[..i - 1], lines[i + 1..];
    assert lines == a + [lines[i - 1], lines[i]] + b;
    assert lines[i - 1 := x][i := y] == a + [x, y] + b;
    hide Words;
    WordsJoin(a + [lines[i - 1], lines[i]], b);
    WordsJoin(a, [lines[i - 1], lines[i]]);
    WordsJoin(a + [x, y], b);
    WordsJoin(a, [x, y]);
    TwoLines(x, y);
    TwoLines(lines[i - 1], lines[i]);
  }

  /** A move keeps the sequence of all words. */
  lemma MoveWords(lines: seq<Line>, i: nat, increase: bool)
    requires i < |lines|
    ensures Words(Move(lines, i, increase)) == Words(lines) && |Move(lines, i, increase)| == |lines|
  {
    var k := if i == 0 then 1 else i;
    if k < |lines| {
      PullWords(lines, k);
      PushWords(lines, k);
    }
  }

  lemma LastAcross(from: Line, to: Line)
    requires from != []
    ensures from[..|from| - 1] + ([from[|from| - 1]] + to) == from + to
  {
  }

  lemma FirstAcross(to: Line, from: Line)
    requires from != []
    ensures (to + [from[0]]) + from[1..] == to + from
  {
  }

  lemma PullWords(lines: seq<Line>, i: nat)
    requires 0 < i < |lines|
    ensures Words(Pull(lines, i)) == Words(lines)
  {
    hide Words;
    var from := lines[i - 1];
    if from != [] {
      LastAcross(from, lines[i]);
      NeighboursWords(lines, i, from[..|from| - 1], [from[|from| - 1]] + lines[i]);
    }
  }

  lemma PushWords(lines: seq<Line>, i: nat)
    requires 0 < i < |lines|
    ensures Words(Push(lines, i)) == Words(lines)
  {
    hide Words;
    var from := lines[i];
    if from != [] {
      var x, y := lines[i - 1] + [from[0]], from[1..];
      FirstAcross(lines[i - 1], from);
      NeighboursWords(lines, i, x, y);
      assert lines[i := y][i - 1 := x] == lines[i - 1 := x][i := y];
    }
  }

  // ------------------------------------------------------------------ the hill climbing

  /** Line i moves towards the average length, unless that makes the lines less even. */
  function Tried(lines: seq<Line>, i: nat): (r: seq<Line>)
    requires i < |lines|
    ensures |r| == |lines|
  {
    var moved := Move(lines, i, CharCount(lines[i]) as real - Average(lines) < 0.0);
    if MeanSquare(moved) > MeanSquare(lines) then lines else moved
  }

  /** A line shorter than the average gives no word away in its turn, and a longer one takes none. */
  lemma TriedTowardsAverage(lines: seq<Line>, i: nat)
    requires i < |lines|
    ensures CharCount(lines[i]) as real < Average(lines) ==> |Tried(lines, i)[i]| >= |lines[i]|
    ensures CharCount(lines[i]) as real >= Average(lines) ==> |Tried(lines, i)[i]| <= |lines[i]|
  {
    hide MeanSquare, CharCount, Average;
  }

  /** Line i has no word to move towards the average, or moving it makes the lines less even. */
  predicate Settled(lines: seq<Line>, i: nat)
    requires i < |lines|
  {
    var t := Move(lines, i, CharCount(lines[i]) as real < Average(lines));
    t == lines || MeanSquare(t) > MeanSquare(lines)
  }

  /** A line's turn leaves a settled line alone; any other gets the line that its word moves to, which is no
      less even. */
  lemma TriedIsLocalOptimum(lines: seq<Line>, i: nat)
    requires i < |lines|
    ensures Tried(lines, i) == lines <==> Settled(lines, i)
    ensures !Settled(lines, i) ==> Tried(lines, i) == Move(lines, i, CharCount(lines[i]) as real < Average(lines))
  {
    hide MeanSquare, CharCount, Average;
  }

  /** The lines after the first n of them have been tried in turn. */
  function Round(lines: seq<Line>, n: nat): (r: seq<Line>)
    requires n <= |lines|
    ensures |r| == |lines|
  {
    if n == 0 then lines else Tried(Round(lines, n - 1), n - 1)
  }

  /** At most so many rounds, the last one being the first that changes the evenness too little. */
  function Balanced(lines: seq<Line>, rounds: nat): (r: seq<Line>)
    requires lines != []
    ensures |r| == |lines|
    decreases rounds
  {
    if rounds == 0 then lines
    else
      var next := Round(lines, |lines|);
      if Distance(MeanSquare(lines), MeanSquare(next)) < SETTLED then next else Balanced(next, rounds - 1)
  }

  function Distance(a: real, b: real): real
  {
    if a >= b then a - b else b - a
  }

  /** No turn of a round changes anything. */
  ghost predicate Quiet(lines: seq<Line>)
  {
    forall n: nat | n <= |lines| :: Round(lines, n) == lines
  }

  /** Such a round is one at whose start every line is settled. */
  lemma QuietRound(lines: seq<Line>)
    ensures Quiet(lines) <==> forall i | 0 <= i < |lines| :: Settled(lines, i)
  {
    hide Settled, Tried;
    if forall i | 0 <= i < |lines| :: Settled(lines, i) {
      QuietTurns(lines, |lines|);
    }
    if Quiet(lines) {
      forall i | 0 <= i < |lines| ensures Settled(lines, i) {
        assert Round(lines, i) == lines && Round(lines, i + 1) == lines;
        TriedIsLocalOptimum(lines, i);
      }
    }
  }

  lemma {:induction false} QuietTurns(lines: seq<Line>, n: nat)
    requires n <= |lines| && forall i | 0 <= i < |lines| :: Settled(lines, i)
    ensures forall k: nat | k <= n :: Round(lines, k) == lines
  {
    hide Settled, Tried;
    if n > 0 {
      QuietTurns(lines, n - 1);
      TriedIsLocalOptimum(lines, n - 1);
    }
  }

  /** A round leaves the variance as it was exactly if none of its turns found a move that lowers it. */
  lemma {:induction false} LevelRound(lines: seq<Line>, n: nat)
    requires n <= |lines| && lines != []
    ensures MeanSquare(Round(lines, n)) == MeanSquare(lines) <==>
            forall i | 0 <= i < n ::
              var now := Round(lines, i);
              MeanSquare(Move(now, i, CharCount(now[i]) as real < Average(now))) >= MeanSquare(now)
  {
    hide MeanSquare, CharCount, Average, Move;
    if n > 0 {
      LevelRound(lines, n - 1);
      RoundKeeps(lines, n - 1);
      var now := Round(lines, n - 1);
      var t := Move(now, n - 1, CharCount(now[n - 1]) as real < Average(now));
      assert now != [] && t != [];
      assert Round(lines, n) == if MeanSquare(t) > MeanSquare(now) then now else t;
    }
  }

  /** A round that ends with the lines it began with need not be quiet: the second line takes back the word that
      it gave to the first. */
  lemma WordThereAndBack(w: Word)
    requires |w| == 1
    ensures Round([[w], [w, w]], 1) == [[w, w], [w]] && Round([[w], [w, w]], 2) == [[w], [w, w]]
  {
    var short, long := [w], [w, w];
    var before, between := [short, long], [long, short];
    assert short[..0] == [] && long[..1] == short && long[1..] == short;
    assert WordChars(short) == 1 && WordChars(long) == 2 by {
      assert WordChars([]) == 0;
    }
    assert CharCount(short) == 1 && CharCount(long) == 3;
    hide CharCount;
    AverageOfTwo(short, long);
    AverageOfTwo(long, short);
    TwoLinesVariance(short, long);
    TwoLinesVariance(long, short);
    hide Average, MeanSquare;
    assert short + [long[0]] == long;
    assert before[1 := short][0 := long] == between;
    assert Move(before, 0, true) == between;
    assert Move(between, 1, true) == before;
    assert Round(before, 0) == before;
    assert Round(before, 1) == Tried(before, 0) == between;
    assert Round(before, 2) == Tried(between, 1) == before;
  }

  lemma AverageOfTwo(x: Line, y: Line)
    ensures Average([x, y]) == (CharCount(x) + CharCount(y)) as real / 2.0
  {
    hide CharCount;
    assert [x, y][..1] == [x] && [x][..0] == [];
    assert TotalChars([x]) == CharCount(x);
  }

  /** The lines after so many whole rounds. */
  function AfterRounds(lines: seq<Line>, n: nat): (r: seq<Line>)
    ensures |r| == |lines|
  {
    if n == 0 then lines else Round(AfterRounds(lines, n - 1), |lines|)
  }

  /** How much the n-th round lowers the variance of the line lengths. */
  function Gain(lines: seq<Line>, n: nat): real
    requires n > 0 && lines != []
  {
    MeanSquare(AfterRounds(lines, n - 1)) - MeanSquare(AfterRounds(lines, n))
  }

  /** The loop ends with the first round that gains less than 0.00001, or with the fortieth. */
  ghost predicate LastRound(lines: seq<Line>, n: nat)
  {
    && 0 < n <= 40 && lines != [] && (n == 40 || Gain(lines, n) < 0.00001)
    && forall k | 0 < k < n :: Gain(lines, k) >= 0.00001
  }

  ghost predicate Evened(lines: seq<Line>, even: seq<Line>)
  {
    exists n :: LastRound(lines, n) && even == AfterRounds(lines, n)
  }

  /** Balancing makes whole rounds, the last of which is the first to gain too little or the fortieth. */
  lemma BalancedIs(lines: seq<Line>, rounds: nat)
    requires lines != [] && rounds == ROUNDS_MAX
    ensures Evened(lines, Balanced(lines, rounds))
  {
    hide Balanced, Round, MeanSquare, Gain;
    assert AfterRounds(lines, 0) == lines;
    hide AfterRounds;
    var n := BalancedFrom(lines, 0, rounds);
  }

  lemma {:induction false} BalancedFrom(lines: seq<Line>, m: nat, left: nat) returns (n: nat)
    requires lines != [] && left > 0 && m + left == 40 && forall k | 0 < k <= m :: Gain(lines, k) >= 0.00001
    ensures LastRound(lines, n) && Balanced(AfterRounds(lines, m), left) == AfterRounds(lines, n)
    decreases left
  {
    hide MeanSquare, Round;
    var now := AfterRounds(lines, m);
    var next := Round(now, |lines|);
    assert next == AfterRounds(lines, m + 1);
    GainNotNegative(lines, m + 1);
    assert Distance(MeanSquare(now), MeanSquare(next)) == Gain(lines, m + 1);
    hide AfterRounds, Gain;
    if Distance(MeanSquare(now), MeanSquare(next)) < SETTLED || left == 1 {
      n := m + 1;
    } else {
      n := BalancedFrom(lines, m + 1, left - 1);
    }
  }

  /** No round makes the lines less even. */
  lemma GainNotNegative(lines: seq<Line>, n: nat)
    requires n > 0 && lines != []
    ensures Gain(lines, n) >= 0.0
  {
    RoundKeeps(AfterRounds(lines, n - 1), |lines|);
    hide MeanSquare, Round;
  }

  lemma TriedKeeps(lines: seq<Line>, i: nat)
    requires i < |lines|
    ensures Words(Tried(lines, i)) == Words(lines) && MeanSquare(Tried(lines, i)) <= MeanSquare(lines)
  {
    MoveWords(lines, i, CharCount(lines[i]) as real - Average(lines) < 0.0);
    hide Words, MeanSquare, Move, CharCount, Average;
  }

  lemma {:induction false} RoundKeeps(lines: seq<Line>, n: nat)
    requires n <= |lines| && lines != []
    ensures Words(Round(lines, n)) == Words(lines) && MeanSquare(Round(lines, n)) <= MeanSquare(lines)
  {
    hide Words, MeanSquare, Tried;
    if n > 0 {
      RoundKeeps(lines, n - 1);
      TriedKeeps(Round(lines, n - 1), n - 1);
    }
  }

  /** Balancing keeps the words in their order and never makes the lines less even. */
  lemma {:induction false} BalancedKeeps(lines: seq<Line>, rounds: nat)
    requires lines != []
    ensures Words(Balanced(lines, rounds)) == Words(lines) && MeanSquare(Balanced(lines, rounds)) <= MeanSquare(lines)
    decreases rounds
  {
    hide Words, MeanSquare, Round;
    if rounds > 0 {
      var next := Round(lines, |lines|);
      RoundKeeps(lines, |lines|);
      if Distance(MeanSquare(lines), MeanSquare(next)) >= SETTLED {
        BalancedKeeps(next, rounds - 1);
      }
    }
  }

  // ------------------------------------------------------------------ the code

  class LineSet {
    var lines: seq<Line>

    constructor (lines: seq<Line>)
      ensures this.lines == lines
    {
      this.lines := lines;
    }

    method IncrLength(lineIdx: nat)
      requires lineIdx < |lines|
      modifies this
      ensures lines == Move(old(lines), lineIdx, true)
      decreases lineIdx == 0, true
    {
      if lineIdx == 0 {
        if |lines| >= 2 {
          DecrLength(1);
        }
        return;
      }
      var from := lines[lineIdx - 1];
      if from == [] {
        return;
      }
      var word := from[|from| - 1];
      lines := lines[lineIdx - 1 := from[..|from| - 1]];
      lines := lines[lineIdx := [word] + lines[lineIdx]];
    }

    method DecrLength(lineIdx: nat)
      requires lineIdx < |lines|
      modifies this
      ensures lines == Move(old(lines), lineIdx, false)
      decreases lineIdx == 0, true
    {
      if lineIdx == 0 {
        if |lines| >= 2 {
          IncrLength(1);
        }
        return;
      }
      var from := lines[lineIdx];
      if from == [] {
        return;
      }
      var word := from[0];
      lines := lines[lineIdx := from[1..]];
      lines := lines[lineIdx - 1 := lines[lineIdx - 1] + [word]];
    }
  }

  class Operation {
    var lset: LineSet
    var lineIdx: nat
    var increase: bool

    constructor (lset: LineSet)
      ensures this.lset == lset
    {
      this.lset, lineIdx, increase := lset, 0, false;
    }

    method DoIncr(incr: bool, lnIdx: nat, lineSet: LineSet)
      requires lnIdx < |lineSet.lines|
      modifies this, lineSet
      ensures lset == lineSet && lineIdx == lnIdx && increase == incr
      ensures lineSet.lines == Move(old(lineSet.lines), lnIdx, incr)
    {
      lineIdx, increase, lset := lnIdx, incr, lineSet;
      if incr {
        lineSet.IncrLength(lnIdx);
      } else {
        lineSet.DecrLength(lnIdx);
      }
    }

    method Revert()
      requires lineIdx < |lset.lines|
      modifies this, lset
      ensures lset == old(lset) && lset.lines == Move(old(lset.lines), old(lineIdx), !old(increase))
    {
      DoIncr(!increase, lineIdx, lset);
    }
  }

  /** One line tried; a move that makes the lines less even is taken back. */
  method TryLine(lineSet: LineSet, opr: Operation, i: nat)
    requires i < |lineSet.lines| && opr.lset == lineSet
    modifies lineSet, opr
    ensures opr.lset == lineSet && lineSet.lines == Tried(old(lineSet.lines), i)
  {
    hide MeanSquare, Move, CharCount, Average;
    ghost var before := lineSet.lines;
    var needIncr := CharCount(lineSet.lines[i]) as real - Average(lineSet.lines) < 0.0;
    MoveBack(before, i, needIncr);
    var oldDelta := MeanSquare(lineSet.lines);
    opr.DoIncr(needIncr, i, lineSet);
    var newDelta := MeanSquare(lineSet.lines);
    if newDelta > oldDelta {
      opr.Revert();
    }
  }

  /** The balancing loop of wrap_string. */
  method Balance(lineSet: LineSet)
    requires lineSet.lines != []
    modifies lineSet
    ensures lineSet.lines == Balanced(old(lineSet.lines), ROUNDS_MAX)
  {
    hide MeanSquare, Round, Tried;
    var opr := new Operation(lineSet);
    var loop := 0;
    while loop < ROUNDS_MAX
      invariant loop <= ROUNDS_MAX && opr.lset == lineSet && fresh(opr) && lineSet.lines != []
      invariant Balanced(lineSet.lines, ROUNDS_MAX - loop) == Balanced(old(lineSet.lines), ROUNDS_MAX)
    {
      ghost var before := lineSet.lines;
      loop := loop + 1;
      var oldDelta := MeanSquare(lineSet.lines);
      RoundStart(before);
      for i := 0 to |lineSet.lines|
        invariant opr.lset == lineSet && |lineSet.lines| == |before| && lineSet.lines == Round(before, i)
      {
        TryLine(lineSet, opr, i);
        RoundNext(before, i);
      }
      var newDelta := MeanSquare(lineSet.lines);
      if Distance(oldDelta, newDelta) < SETTLED {
        break;
      }
    }
  }

  lemma RoundStart(lines: seq<Line>)
    ensures Round(lines, 0) == lines
  {
  }

  lemma RoundNext(lines: seq<Line>, i: nat)
    requires i < |lines|
    ensures Round(lines, i + 1) == Tried(Round(lines, i), i)
  {
  }

  // ------------------------------------------------------------------ the result

  predicate Unbroken(w: Word)
  {
    forall i | 0 <= i < |w| :: !IsBlank(w[i])
  }

  lemma {:induction false} SplitUnbroken(s: Text)
    ensures forall k | 0 <= k < |Split(s)| :: Unbroken(Split(s)[k])
  {
    if s != [] {
      SplitUnbroken(s[1..]);
    }
  }

  /** toUTF8String, before the conversion to UTF-8: each word followed by a space. */
  function Render(words: Line): Text
  {
    if words == [] then [] else words[0] + [0x20] + Render(words[1..])
  }

  /** The words of a line one after the other, each with a space behind it. */
  lemma {:induction false} RenderAppend(words: Line, w: Word)
    ensures Render([]) == [] && Render(words + [w]) == Render(words) + w + [0x20]
  {
    if words != [] {
      RenderAppend(words[1..], w);
      assert (words + [w])[1..] == words[1..] + [w];
    } else {
      assert [w][1..] == [];
    }
  }

  lemma {:induction false} UnbrokenSplit(w: Word)
    requires Unbroken(w)
    ensures Split(w) == [w]
  {
    if w != [] {
      UnbrokenSplit(w[1..]);
      assert [w[0]] + w[1..] == w;
    }
  }

  /** A rendered line has the words of the line. */
  lemma {:induction false} RenderedWords(words: Line)
    requires forall k | 0 <= k < |words| :: Unbroken(words[k])
    ensures Solid(Split(Render(words))) == Solid(words)
  {
    if words == [] {
      EmptySplit();
    } else {
      RenderedWords(words[1..]);
      UnbrokenSplit(words[0]);
      SplitJoin(words[0], 0x20, Render(words[1..]));
      SolidJoin([words[0]], Split(Render(words[1..])));
      SolidJoin([words[0]], words[1..]);
      assert [words[0]] + words[1..] == words;
    }
  }

  /** The words of a list of texts. */
  function TextWords(texts: seq<Text>): Line
  {
    if texts == [] then [] else TextWords(texts[..|texts| - 1]) + Solid(Split(texts[|texts| - 1]))
  }

  lemma {:induction false} RenderedAll(lines: seq<Line>, texts: seq<Text>)
    requires |texts| == |lines| && forall k | 0 <= k < |lines| :: texts[k] == Render(lines[k])
    requires forall k | 0 <= k < |Words(lines)| :: Unbroken(Words(lines)[k])
    ensures TextWords(texts) == Solid(Words(lines))
  {
    if lines != [] {
      var n := |lines| - 1;
      var front, all := Words(lines[..n]), Words(lines);
      assert forall k | 0 <= k < |front| :: front[k] == all[k];
      assert forall k | 0 <= k < |lines[n]| :: lines[n][k] == all[|front| + k];
      RenderedAll(lines[..n], texts[..n]);
      RenderedWords(lines[n]);
      SolidJoin(front, lines[n]);
    }
  }

  lemma {:induction false} CoveredUnbroken(s: Text, lines: seq<Line>, ends: seq<nat>)
    requires Covers(s, lines, ends)
    ensures forall k | 0 <= k < |Words(lines)| :: Unbroken(Words(lines)[k])
  {
    if lines != [] {
      var n := |lines| - 1;
      CoversFront(s, lines, ends);
      CoversLast(s, lines, ends);
      hide Covers, Split, Unbroken;
      CoveredUnbroken(s, lines[..n], ends[..n]);
      SplitUnbroken(s[Begin(ends, n)..ends[n]]);
    }
  }

  /** The words of the cover of the whole text are the words of the text. */
  lemma WholeText(s: Text, lines: seq<Line>, ends: seq<nat>)
    requires Covers(s, lines, ends) && Begin(ends, |ends|) == |s|
    ensures Solid(Words(lines)) == Solid(Split(s))
  {
    CoveredWords(s, lines, ends);
    assert s[..|s|] == s;
  }

  /** wrap_string of decoded text, None for a null or undecodable source. The result is the first cut, evened out,
      one text a line; it has the words of the text, in order, and no other words. */
  method WrapString(source: Option<Text>, charsPerLine: int)
    returns (result: Option<seq<Text>>, ghost cut: seq<Line>, ghost ends: seq<nat>, ghost even: seq<Line>)
    requires source.Some? && source.value != [] && charsPerLine > 0 ==> Breakable(source.value, charsPerLine)
    ensures result.None? <==> source.None? || charsPerLine <= 0
    ensures result.Some? && source.value == [] ==> result.value == []
    ensures result.Some? ==> TextWords(result.value) == Solid(Split(source.value))
    ensures result.Some? && source.value != [] ==>
              && FirstCut(source.value, charsPerLine, cut, ends) && Evened(cut, even)
              && |result.value| == |even| && forall k | 0 <= k < |even| :: result.value[k] == Render(even[k])
  {
    cut, ends, even := [], [], [];
    if source.None? || charsPerLine <= 0 {
      result := None;
      return;
    }
    EmptySplit();
    if source.value == [] {
      result := Some([]);
      return;
    }
    hide Covers, Split, Solid, Words, MeanSquare, Breakable, Unbroken, Render, TextWords, Evened, After,
      CharactersPerLine;
    var lines;
    lines, ends := InitialSet(source.value, charsPerLine);
    cut := lines;
    WholeText(source.value, lines, ends);
    CoveredUnbroken(source.value, lines, ends);
    BalancedKeeps(lines, ROUNDS_MAX);
    BalancedIs(lines, ROUNDS_MAX);
    hide Balanced;
    var lineSet := new LineSet(lines);
    Balance(lineSet);
    even := lineSet.lines;
    var texts := seq(|lineSet.lines|, i requires 0 <= i < |lineSet.lines| reads lineSet => Render(lineSet.lines[i]));
    RenderedAll(lineSet.lines, texts);
    result := Some(texts);
  }
}
